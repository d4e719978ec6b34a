# The stateful core of FDT's libfuse, cJSON and event stream, in Dafny

The project models the parts of the repository that keep state, and proves what they keep over
every call and every run. `dafny verify dfyconfig.toml` checks all of it.

**The inode and path cache of `libfuse/lib/fuse.c`.** Nodes are found through two hash tables that
grow and shrink one bucket at a time (`LinearHash`), counted by references that cascade upwards when
the last one goes (`NodeTree`), and locked path by path with one integer per node (`TreeLocks`).
Requests that find a path locked wait in a queue (`PathQueue`). `PathProtocol` is the whole machine:
lookups, forgets, removals, renames and path locking of any number of requests, one atomic step for
each stretch of code that holds the mutex. `RunSafety` says what its invariant means for every run,
`QueueProgress` that no wake-up is lost, `PathBlockers` whose locks keep a request waiting and when
the waiting requests are deadlocked, and `RenameDeadlock` is a run in which they are. `NodeCache`,
`PathText`, `PathLocking` and `LockQueue` are the same code in the form in which it runs (loops,
recursion, fields updated in place, the assertions of the source asserted on the way); each
operation is proved to take exactly the step that the machine takes. `SlabAllocator` is the memory
under the nodes, `ByteRangeLocks` the POSIX record locks on a node, and `OpenFiles` the renaming of
files that are removed while they are open.

**cJSON and the event stream.** `Json` gives the printed text of a value and the reading of text as
functions. `JsonGrammar` is the syntax of RFC 8259 with its meaning, independent of the printer and the
parser; `JsonReading` proves that the parser reads every text as the grammar says, `JsonTruncated` that
it refuses what is cut short, and `JsonPrinting` that the printer writes texts of the grammar.
`JsonText` has the printing and parsing loops, `JsonMinify` the minifier and `EventStream` the scanner
of `debugger.c` that cuts the stream of events apart again.

**The option vector of `libfuse/lib/fuse_opt.c`** is `OptionVector`, on the option groups of
`OptionText`, **the scatter/gather copy of `libfuse/lib/buffer.c`** is `BufferCopy`. `Wrappers` and
`CText` hold a few shared definitions.

What the environment promises is a precondition, taken from the contract between kernel and library
(`libfuse/include/fuse_lowlevel.h`, lines 206-218): ids are live, a forget gives back no more lookups
than were given, the node a request starts from or writes is looked up while the request runs, and a
rename acts on names that its request has locked. Outcomes of allocations, of `mmap` and of the
backend are parameters. A node is identified by its id; its `parent` and `name`, which the code sets
and clears together, are one optional link, and the root's own name "/", which nothing looks at, is
left out.

Some things that one might expect are not so; the lemmas say exactly when they are:

- An event is cut out of the stream at its end if and only if the string literals that end in a
  backslash are even in number and the braces that the scanner then sees balance
  (`EventStream.CutExactly`). A name that ends in a backslash loses its event
  (`EventStream.BackslashLosesEvent`).
- What is read of a JSON text is the value that it stands for if and only if no `\u0000` is in it; these
  are left out of the strings (`JsonReading.TextReads`, `JsonReading.CutIsWhole`).
- An array or object that is cut short is always refused (`JsonTruncated.TruncatedIsRefused`), but a string
  whose closing quote is missing is not (`JsonTruncated.UnclosedIsRead`).
- The minifier takes a slash right after the opening of a block comment for its end
  (`JsonMinify.CommentEnds`).
- Leading empty options leave no trace in the emitted "-o" list (`OptionText.EmittedDecodes`).
- `fuse_buf_copy` leaves the destination cursor one chunk behind if and only if the source ends in a
  non-empty last buffer and is no longer than the destination (`BufferCopy.FuseBufCopy`,
  `BufferCopy.CursorLeftBehind`).
- `fuse_buf_size` reports an unknown size if and only if the sizes after the last unknown one add up
  to a multiple of the word range (`BufferCopy.SizeMeans`, `BufferCopy.UnknownSizeLost`).
- A rename onto an open file gives the target the source's file if and only if the source is not the
  very name that the target has just been hidden under (`OpenFiles.FileTable.Rename`,
  `OpenFiles.HiddenNameMistaken`). A rename that fails leaves names and files alone if and only if it has
  not hidden the target.
- Letting only the head of the queue keep one of its two paths does not rule out deadlock. After paths
  have been freed, the waiting requests are deadlocked if and only if the head has the only lock and its
  own path is all that keeps it from the other one, or nobody has a lock and every one of them asks for
  two paths that exclude each other (`PathBlockers.DeadlockExactly`). A rename within one directory can
  get there (`RenameDeadlock.RenameBlocksItself`), and then it waits for ever
  (`RenameDeadlock.RenameWaitsForEver`).

## Model

| member | source | states |
|---|---|---|
| `RunSafety.RefCountIsExact` | libfuse/lib/fuse.c:713-887 | in every state of every run a node's `refctr` is one if it is looked up, plus its named children, plus the "." references on it; it is positive, the parent is live, the name leads back to the node and the climb to the root is finite |
| `RunSafety.TreeLockDecodes` | libfuse/lib/fuse.c:922-1023 | in every state of every run the `treelock` of a node is either the write mark with exactly one writer and no path through the node, or encodes exactly the number of locked paths through it |
| `RunSafety.LockedPathStands` | libfuse/lib/fuse.c:943-1023 | a locked path is still the path from its base to the root, all its nodes are live and locked, and the node it writes is not on it |
| `RunSafety.OnlyHeadIsPartial` | libfuse/lib/fuse.c:1041-1103 | a queue element other than the head has all the paths it asked for or none |
| `RunSafety.DeletedIsUnlocked` | libfuse/lib/fuse.c:796-816 | a node that disappears in a step, by whatever cascade, was unlocked before the step |
| `RunSafety.StepLookups` | libfuse/lib/fuse.c:843-887 | each step changes a node's lookup count by exactly what it gives to or takes back from the kernel |
| `RunSafety.LookupsAreConserved` | libfuse/lib/fuse.c:1295-1331 | over a whole run a node's `nlookup` is what the kernel was given less what it gave back, so a node the kernel can still name is live |
| `QueueProgress.NoWakeupIsLost` | libfuse/lib/fuse.c:1041-1103 | in every run, when a request has freed its paths, every element that still waits would be refused for now if it were tried again |
| `QueueProgress.EveryoneIsSignalled` | libfuse/lib/fuse.c:1041-1103 | waking the queue signals exactly the path requests that are done afterwards, and every forget whose node is unlocked afterwards |
| `QueueProgress.OnlyFreeingUnlocks` | libfuse/lib/fuse.c:922-1293 | no step other than the freeing of paths makes a locked node unlocked |
| `QueueProgress.ForgetIsSignalled` | libfuse/lib/fuse.c:1046-1051 | when paths have been freed, every forget that waits for a node which is then unlocked has been signalled |
| `QueueProgress.LockStepsKeepStuck` | libfuse/lib/fuse.c:1156-1293 | steps that only lock, wait or unlock never leave an element waiting that could be served |
| `QueueProgress.RefusalPersists` | libfuse/lib/fuse.c:970-1002 | what is refused because of locks stays refused while nothing is unlocked and no mark goes |
| `QueueProgress.WakeupTightens` | libfuse/lib/fuse.c:1041-1095 | waking an element other than the head unlocks nothing that was locked and clears no mark |
| `PathBlockers.RefusedByBlockers` | libfuse/lib/fuse.c:970-1002 | a path is refused for now if and only if its base is connected to the root and somebody writes a node on the way, reads one that a writer has marked, or has the node to be written; it fails for good if and only if the base is cut off |
| `PathBlockers.GrabExactly` | libfuse/lib/fuse.c:943-1023 | an attempt gives the request exactly the chain to the root and the node to be written, adds nothing for anybody else and nothing but at most one mark if refused |
| `PathBlockers.TryBothExactly` | libfuse/lib/fuse.c:1211-1230 | trying two paths gives both or none, fails for good if and only if one of them does, and a refusal leaves at most the mark of the path that was refused |
| `PathBlockers.AskExactly` | libfuse/lib/fuse.c:1156-1263 | a request that asks is active with its paths, waits at the end of the queue with none, or has failed for good, exactly as trying them turns out |
| `PathBlockers.WakeupExactly` | libfuse/lib/fuse.c:1041-1095 | a wake-up tries the first path that is missing and then the second one unless the first has failed for good; with all paths or a failure the element is done, and what it has got is given back if it has failed or is not the head |
| `PathBlockers.WakeAllInTurn` | libfuse/lib/fuse.c:1097-1103 | the elements are woken one after the other, from the head on |
| `PathBlockers.FreedExactly` | libfuse/lib/fuse.c:1265-1293 | a request that frees its paths loses its locks and nobody else does; then the queue is woken in turn |
| `PathBlockers.BothRefusedExactly` | libfuse/lib/fuse.c:1211-1230 | trying two paths from scratch is refused for now if and only if somebody is in the way of one of them, or one leads through the node the other writes, or both write the same node |
| `PathBlockers.OwnLockAlone` | libfuse/lib/fuse.c:1053-1083 | a request is refused one path and would get it by giving back the other if and only if the other path is all that is in the way |
| `PathBlockers.EmptyHandedIsBlocked` | libfuse/lib/fuse.c:1041-1095 | an element that has no path and is refused its first one is kept from it by a lock of another request |
| `PathBlockers.StuckIsBlocked` | libfuse/lib/fuse.c:1041-1095 | an element that would be refused is kept waiting by a lock of another request, or by itself alone, never both |
| `PathBlockers.ItselfExactly` | libfuse/lib/fuse.c:1041-1095 | it is blocked by itself alone if and only if it would get the path it lacks if it had not taken the other, or, having none, would get either path alone |
| `PathBlockers.WaitersAreBlocked` | libfuse/lib/fuse.c:1041-1103 | so it is for every element that waits after any freeing of paths in any run |
| `PathBlockers.DeadlockExactly` | libfuse/lib/fuse.c:1076-1084 | once the queue has been tried, all holders of locks are waiting if and only if the head has the only lock and blocks itself, or there is no lock and every waiting element asks for two paths that exclude each other |
| `PathBlockers.RunDeadlocks` | libfuse/lib/fuse.c:1265-1293 | so it is after any freeing of paths in any run |
| `PathBlockers.WedgedStays` | libfuse/lib/fuse.c:974-1083 | a head that waits at a marked node which its own path crosses goes on waiting there, whatever step anybody takes |
| `PathBlockers.WaitsForEver` | libfuse/lib/fuse.c:974-1083 | and so in every later state of the run |
| `RenameDeadlock.RenameBlocksItself` | libfuse/lib/fuse.c:974-1083 | for any directory and any two names in it, a run of nine steps after which a rename has the only lock and is blocked by itself alone |
| `RenameDeadlock.RenameWaitsForEver` | libfuse/lib/fuse.c:1232-1263 | in every continuation of that run the rename still waits with one path |
| `PathProtocol.RunKeeps` | libfuse/lib/fuse.c:713-1387 | every state of every run satisfies the invariant of tree, locks and queue |
| `PathProtocol.StepKeeps` | libfuse/lib/fuse.c:713-1387 | every enabled step keeps the invariant |
| `PathProtocol.InitInv` | libfuse/lib/fuse.c:6612-6645 | the cache of a new filesystem satisfies it |
| `PathProtocol.LookupKeeps` | libfuse/lib/fuse.c:850-887 | `find_node` keeps it |
| `PathProtocol.DotKeeps` | libfuse/lib/fuse.c:4354-4390 | taking and dropping the reference of a "." lookup keeps it |
| `PathProtocol.ForgottenKeeps` | libfuse/lib/fuse.c:1295-1331 | a forget, which waits when it would take the last lookups of a locked node, keeps it |
| `PathProtocol.ForgetResumedKeeps` | libfuse/lib/fuse.c:1315-1330 | a forget that has waited keeps it |
| `PathProtocol.PathAskedKeeps` | libfuse/lib/fuse.c:1156-1263 | asking for one or two paths keeps it, whether they are granted, awaited or impossible |
| `PathProtocol.TryBothKeeps` | libfuse/lib/fuse.c:1211-1230 | two paths are locked together or not at all, and nobody else's locks change |
| `PathProtocol.WaiterLeftKeeps` | libfuse/lib/fuse.c:1134-1154 | leaving the queue keeps it, also when the next element becomes the head |
| `PathProtocol.PathFreedKeeps` | libfuse/lib/fuse.c:1265-1293 | freeing paths and waking the queue keeps it |
| `PathProtocol.RemovedKeeps` | libfuse/lib/fuse.c:1342-1351 | removing a name that the request has write-locked keeps it |
| `PathProtocol.RenameIsSafe` | libfuse/lib/fuse.c:1353-1387 | the locks of a rename imply that both directories are looked up and that the new one is not below the moved node |
| `PathProtocol.RenamedKeeps` | libfuse/lib/fuse.c:1353-1387 | renaming under those locks keeps it |
| `PathProtocol.WriterIsAlone` | libfuse/lib/fuse.c:970-982 | a write-locked node is live, on nobody's locked path and written by one request only |
| `PathProtocol.BrokenPersists` | libfuse/lib/fuse.c:984-988 | a change of the tree that links nothing below an unlinked directory anew leaves broken chains broken |
| `PathProtocol.BrokenStays` | libfuse/lib/fuse.c:713-1387 | every step is such a change: a node that is cut off from the root and survives the step is still cut off |
| `RunSafety.BrokenForGood` | libfuse/lib/fuse.c:984-988 | in a run, a node that is cut off from the root stays so as long as it lives |
| `RunSafety.NoEntryForGood` | libfuse/lib/fuse.c:984-1017 | and every attempt on a path from it fails for good in all that time |
| `PathQueue.MarkStopsReaders` | libfuse/lib/fuse.c:974-998 | while a waiting writer's mark is on a node no attempt adds a reader or takes the mark away |
| `PathQueue.MarkOutlastsReaders` | libfuse/lib/fuse.c:937-939 | unlocking keeps the mark until the last reader is gone |
| `PathQueue.BrokenIsRefused` | libfuse/lib/fuse.c:984-1017 | a path below an unlinked directory is refused at once and without a trace, whatever is locked |
| `PathQueue.LockedIsComplete` | libfuse/lib/fuse.c:922-1023 | a locked node that is linked can be reached from the root |
| `PathQueue.GrabKeeps` | libfuse/lib/fuse.c:943-1023 | an attempt on a path keeps all locks exact, touches no other request, and fails for good if and only if the base has been cut off from the root |
| `PathQueue.GrantedExactly` | libfuse/lib/fuse.c:970-1002 | a path is granted if and only if the base is connected to the root, nobody writes or waits to write a node on the way, and nobody has the node to be written |
| `PathQueue.DropBothKeeps` | libfuse/lib/fuse.c:1025-1039 | unlocking a request's paths takes away its locks and nothing else |
| `PathQueue.WakeupKeeps` | libfuse/lib/fuse.c:1041-1095 | a wake-up settles one element and leaves every other element and every other request as it was |
| `PathQueue.WakeAllKeeps` | libfuse/lib/fuse.c:1097-1103 | waking the whole queue keeps the invariant and the shape of the tree |
| `TreeLocks.GrantKeeps` | libfuse/lib/fuse.c:943-1013 | a granted path adds one reader to each node of its chain and at most one writer, and every integer stays exact |
| `TreeLocks.GrantedHold` | libfuse/lib/fuse.c:943-1013 | what is granted is the chain to the root, no node of which was write-locked or marked, and a target that nobody had locked |
| `TreeLocks.RefusalKeeps` | libfuse/lib/fuse.c:970-979 | a refusal leaves at most a mark on the readers in its way |
| `TreeLocks.UnlockAsserts` | libfuse/lib/fuse.c:928-936 | the assertions of `unlock_path` hold for every locked path |
| `TreeLocks.ReleaseKeeps` | libfuse/lib/fuse.c:922-941 | unlocking keeps every integer exact |
| `TreeLocks.EvolveKeepsLocks` | libfuse/lib/fuse.c:796-808 | a change of the tree that relinks nothing on a locked path and gives up only unlocked nodes keeps all locked paths and integers |
| `TreeLocks.DeletedWereUnlocked` | libfuse/lib/fuse.c:802 | what such a change deletes was unlocked |
| `NodeTree.UnrefKeeps` | libfuse/lib/fuse.c:713-816 | dropping one reference, with the cascade it may start, leaves exact counts and a tree; only nodes without lookups and references go |
| `NodeTree.CreateKeeps` | libfuse/lib/fuse.c:860-880 | a new node keeps tree and counts |
| `NodeTree.IncLookupKeeps` | libfuse/lib/fuse.c:843-848 | one more lookup keeps tree and counts |
| `NodeTree.ForgetKeeps` | libfuse/lib/fuse.c:1323-1329 | taking lookups back keeps tree and counts and relinks nothing |
| `NodeTree.UnhashKeeps` | libfuse/lib/fuse.c:713-739 | taking a node off its parent keeps tree and counts; under a parent that is looked up nothing else goes |
| `NodeTree.HashKeeps` | libfuse/lib/fuse.c:770-794 | hanging a node anywhere outside its own subtree keeps tree and counts |
| `NodeTree.RenameKeeps` | libfuse/lib/fuse.c:1353-1387 | after a rename the new name leads to the node, the old name is gone, what had the new name is unlinked, no node disappears, and the tree has no cycle |
| `NodeTree.FindLooksUp` | libfuse/lib/fuse.c:850-887 | the answer is the node the name has, or the new id for a name nobody has; that node has one lookup more, the name leads to it, and no other node, name or link changes |
| `NodeTree.UnhashRemoves` | libfuse/lib/fuse.c:1342-1351 | the name is gone, its node has no link and no lookup count changes; if the directory is looked up no node goes and no other name or link changes; nothing happens for a name nobody has |
| `NodeTree.RenameMoves` | libfuse/lib/fuse.c:1353-1387 | the new name leads to the moved node and the old name to nothing, what had the new name has no link, and when hiding it is exactly the new name being taken that makes it fail and change nothing; no other name, link or lookup count changes |
| `NodeTree.DotGivenBack` | libfuse/lib/fuse.c:4386-4390 | taking the reference of a "." lookup and giving it back changes nothing |
| `NodeTree.ChainUnique` | libfuse/lib/fuse.c:984-985 | there is one way from a node to the root |
| `NodeCache.Cache.UnrefNode` | libfuse/lib/fuse.c:810-816 | the count is positive, and in the end exactly what `Unref` deletes is gone |
| `NodeCache.Cache.DeleteNode` | libfuse/lib/fuse.c:796-808 | the node is unlocked, and it and what the cascade reaches are gone |
| `NodeCache.Cache.UnhashName` | libfuse/lib/fuse.c:713-739 | the node is found under its name, the parent loses a reference before the node forgets it, and the result is that of cutting the link first |
| `NodeCache.Cache.UnhashId` | libfuse/lib/fuse.c:596-609 | the node leaves the id table and nothing else changes |
| `NodeCache.Cache.UnlinkNode` | libfuse/lib/fuse.c:1333-1340 | does what `Unhash` says, and the node itself survives |
| `NodeCache.Cache.HashName` | libfuse/lib/fuse.c:770-794 | does what `Hash` says |
| `NodeCache.Cache.NextId` | libfuse/lib/fuse.c:818-827 | terminates with the next id that is free and reserved for nobody, every number passed over being taken or reserved; the generation counts the times the numbers start over, so that the pair has not been given out before |
| `NodeCache.Cache.IncNlookup` | libfuse/lib/fuse.c:843-848 | does what `IncLookup` says |
| `NodeCache.Cache.FindNode` | libfuse/lib/fuse.c:850-887 | the answer is the node the name has, or the new id if nobody has it; the name leads to it, it has one lookup more, no other node, name or link changes, and a new id is drawn only for a name that is not known |
| `NodeCache.Cache.ForgetNode` | libfuse/lib/fuse.c:1323-1330 | the count suffices; the node has that many lookups less, every other node that is left has as many as before, and the tree is the one `Forget` gives |
| `NodeCache.Cache.RemoveNode` | libfuse/lib/fuse.c:1342-1351 | the name is gone, its node has no link and no lookup count changes; if the directory is looked up no node goes and no other name or link changes; nothing happens for an unknown name |
| `NodeCache.Cache.RenameNode` | libfuse/lib/fuse.c:1353-1387 | the new name leads to the node that had the old one, the old one to nothing, what had the new one has no link, and nothing else moves; it fails, changing nothing, if and only if a hidden name already exists |
| `NodeCache.Cache.TakeDotRef` | libfuse/lib/fuse.c:4354-4360 | the node has one more reference for a "." lookup, and nothing else changes |
| `NodeCache.Cache.DropDotRef` | libfuse/lib/fuse.c:4386-4390 | the reference is given back, with the cascade it may start |
| `NodeCache.Cache.constructor` | libfuse/lib/fuse.c:6612-6643 | only the root, looked up once |
| `NodeCache.UnrefStays` | libfuse/lib/fuse.c:713-816 | the cascade reaches ancestors only |
| `PathText.PathBuffer.AddName` | libfuse/lib/fuse.c:889-920 | the text becomes a slash, the name and the text that was there, also when the buffer is reallocated |
| `PathText.PathBuffer.Grow` | libfuse/lib/fuse.c:893-912 | doubling the buffer keeps the suffix and leaves room for the name |
| `PathText.PathBuffer.Finish` | libfuse/lib/fuse.c:1004-1007 | the path is the text, or a slash for the root |
| `PathText.PathLeadsBack` | libfuse/lib/fuse.c:829-1013 | looking up the components of a node's path one by one from the root leads to the node |
| `PathText.LookupGivesPath` | libfuse/lib/fuse.c:829-1013 | a node that components lead to from the root has exactly their path |
| `PathText.ComponentsOfPath` | libfuse/lib/fuse.c:889-920 | cutting a path at its slashes gives back the names it was joined from |
| `PathLocking.UnlockNodes` | libfuse/lib/fuse.c:922-941 | the assertions hold, the written node is unlocked and every node of the climb has one reader less |
| `PathLocking.UnlockUp` | libfuse/lib/fuse.c:932-940 | the climb ends where it should and visits exactly the nodes below |
| `PathLocking.LockUp` | libfuse/lib/fuse.c:984-1002 | the climb locks every node up to the first obstacle, names the obstacle, and has built the names it passed |
| `PathLocking.TakeWriteLock` | libfuse/lib/fuse.c:970-982 | a free target is write-locked, readers of a busy one are marked, and nothing else changes |
| `PathLocking.LockOrUndo` | libfuse/lib/fuse.c:984-1017 | all nodes of the path are locked, or all is as before |
| `PathLocking.TryGetPath` | libfuse/lib/fuse.c:943-1023 | the outcome is that of `TryPath`, and a granted path comes with the names from the root to the node joined by slashes |
| `LockQueue.Fuse.TryPathFor` | libfuse/lib/fuse.c:1054-1061 | one attempt is one `Grab` |
| `LockQueue.Fuse.UnlockTicket` | libfuse/lib/fuse.c:922-941 | unlocking one path is one `Drop`, and no assertion fails |
| `LockQueue.Fuse.QueueElementUnlock` | libfuse/lib/fuse.c:1025-1039 | both paths of an element are unlocked |
| `LockQueue.Fuse.QueueElementWakeup` | libfuse/lib/fuse.c:1041-1095 | is the `Wakeup` of the machine |
| `LockQueue.Fuse.WakeUpQueued` | libfuse/lib/fuse.c:1097-1103 | is the `WakeAll` of the machine |
| `LockQueue.Fuse.TryGetPaths` | libfuse/lib/fuse.c:1211-1230 | is `TryBoth` |
| `LockQueue.Fuse.GetPaths` | libfuse/lib/fuse.c:1156-1263 | takes the step PathAsked: the request has all its paths, waits at the end of the queue with none, or has failed and is gone, and nobody else's locks change |
| `LockQueue.Fuse.LeaveQueue` | libfuse/lib/fuse.c:1134-1154 | takes the step WaiterLeft: the element leaves the queue, the others keep their order, the request is active with the paths it has got, and the element's result is returned |
| `LockQueue.Fuse.FreePaths` | libfuse/lib/fuse.c:1265-1293 | takes the step PathFreed: the request and its locks are gone, and the queue has the same elements, woken in turn |
| `LockQueue.Fuse.ForgetNode` | libfuse/lib/fuse.c:1295-1331 | takes the step Forgotten; it waits, at the end of the queue and changing nothing else, if and only if it would take the last lookups of a locked node, and otherwise the node has that many lookups less |
| `LockQueue.Fuse.ResumeForget` | libfuse/lib/fuse.c:1315-1330 | takes the step ForgetResumed: the element leaves the queue and its node has that many lookups less |
| `LockQueue.Fuse.FindNode` | libfuse/lib/fuse.c:850-887 | takes the step Lookup: the answer is the node the name has or the new id, which has one lookup more, and no other node, name or link changes |
| `LockQueue.Fuse.TakeDot` | libfuse/lib/fuse.c:4354-4360 | takes the step DotTaken |
| `LockQueue.Fuse.DropDot` | libfuse/lib/fuse.c:4386-4390 | takes the step DotDropped |
| `LockQueue.Fuse.RemoveNode` | libfuse/lib/fuse.c:1342-1351 | takes the step Removed: the name is gone, its node has no link, and no other name or link changes; no lock is deleted |
| `LockQueue.Fuse.RenameNode` | libfuse/lib/fuse.c:1353-1387 | takes the step Renamed: the new name leads to the moved node, the old one to nothing, and nothing else moves; it fails if and only if a hidden name exists; no lock is deleted |
| `LinearHash.RunTable` | libfuse/lib/fuse.c:554-794 | every run of lookups, insertions and removals, also removals that begin before others have ended, is answered as a plain map answers it, whichever reallocations fail; `use` counts the entries and the removals under way, and while no reallocation fails it stays below the number of active buckets |
| `LinearHash.RunHashTable` | libfuse/lib/fuse.c:493-502 | the same, with the same bound, for the slot function of the code, whatever the hash |
| `LinearHash.SlotIsActive` | libfuse/lib/fuse.c:493-502 | the slot of a key is below size/2 + split |
| `LinearHash.SlotIsRest` | libfuse/lib/fuse.c:493-502 | the slot of a hash is its rest by size/2, or by size where the bucket of that rest has been split |
| `LinearHash.SlotAfterSplit` | libfuse/lib/fuse.c:628-655 | advancing `split` moves keys of one bucket only, and only to its partner |
| `LinearHash.SlotAfterDoubling` | libfuse/lib/fuse.c:611-626 | doubling the table after the last split moves nothing |
| `LinearHash.NodeTable.Lookup` | libfuse/lib/fuse.c:504-514 | finds what a plain map has |
| `LinearHash.NodeTable.Insert` | libfuse/lib/fuse.c:657-666 | adds one entry and no other; `size` and `split` grow exactly as the load says; the load bound is kept if memory suffices |
| `LinearHash.NodeTable.Rehash` | libfuse/lib/fuse.c:628-655 | splits exactly the next bucket, doubling the table after the last one if memory suffices, and loses no entry |
| `LinearHash.NodeTable.DivideChain` | libfuse/lib/fuse.c:640-652 | the chain is divided into those that stay and those that move |
| `LinearHash.NodeTable.Resize` | libfuse/lib/fuse.c:611-626 | doubles the table, or leaves it when memory fails, and loses no entry |
| `LinearHash.NodeTable.Unlink` | libfuse/lib/fuse.c:719-722 | takes out the entry and no other, before `use` is counted down |
| `LinearHash.NodeTable.Release` | libfuse/lib/fuse.c:728-731 | counts `use` down, folds buckets back exactly when less than a quarter is used, and keeps the load bound |
| `LinearHash.NodeTable.Remerge` | libfuse/lib/fuse.c:570-594 | halves the table where the splits are undone, then folds back up to eight buckets, stopping after the first that was not empty, and loses no entry |
| `LinearHash.NodeTable.FoldBucket` | libfuse/lib/fuse.c:581-592 | folds one bucket into its partner |
| `LinearHash.NodeTable.Reduce` | libfuse/lib/fuse.c:554-568 | halves the table unless it has its least size, whether or not memory is given back, and loses no entry |
| `LinearHash.NodeTable.UpperBucketsAreEmpty` | libfuse/lib/fuse.c:554-568 | all buckets from size/2 + split on are empty |
| `SlabAllocator.NodeSlabs.AllocSlab` | libfuse/lib/fuse.c:399-429 | a new page is cut into as many free nodes as it holds, in order, and joins the end of the partial list |
| `SlabAllocator.NodeSlabs.AllocNode` | libfuse/lib/fuse.c:431-452 | the node is the first free one of the first partial slab, or of a new page if there is none; it was not live, nobody else's changes, a slab goes to the full ones with its last node, and it fails if and only if nothing is free and no page is to be had |
| `SlabAllocator.NodeSlabs.FreeNodeMem` | libfuse/lib/fuse.c:454-479 | exactly that node is no longer live and is the next to be taken from its slab; a full slab becomes the last partial one, and a page without nodes is unmapped |
| `SlabAllocator.NodeSlabs.Destroy` | libfuse/lib/fuse.c:6704-6715 | when all nodes are freed both lists are empty |
| `SlabAllocator.SlabIsConserved` | libfuse/lib/fuse.c:399-479 | `used` and the free list add up to the slab's capacity |
| `SlabAllocator.PageIsFilled` | libfuse/lib/fuse.c:415-422 | the nodes of a page follow each other to its end, and no other would fit behind the header |
| `SlabAllocator.WithoutDeletes` | libfuse/lib/fuse.c:431-479 | taking an element off a list keeps the others in order |
| `SlabAllocator.LiveAreApart` | libfuse/lib/fuse.c:399-452 | live nodes never overlap |
| `SlabAllocator.NodeToSlab` | libfuse/lib/fuse.c:394-397 | masking a live node's address gives the slab it came from |
| `OpenFiles.FileTable.Run` | libfuse/lib/fuse.c:4659-4820 | in every run every open file is in the backend under the name of its node, and hidden nodes are open |
| `OpenFiles.FileTable.Unlink` | libfuse/lib/fuse.c:4659-4683 | a file that is not open is removed exactly when the backend has it and lets it go; an open one moves, with its node, to the first free hidden name, exactly when one is found and the backend renames it; nothing else changes, and failing changes nothing |
| `OpenFiles.FileTable.RemoveFile` | libfuse/lib/fuse.c:4659-4683 | a file that is not open is removed exactly when the backend has it and lets it go; its name and file are gone and nothing else changes |
| `OpenFiles.FileTable.Rename` | libfuse/lib/fuse.c:4728-4757 | exactly when it succeeds; then the target name has the source's file and node and the source name is gone, unless the source is the name the target was hidden under; when it fails, nothing has changed or the target has been hidden and nothing else has changed; an open target is kept |
| `OpenFiles.FileTable.HideNode` | libfuse/lib/fuse.c:4112-4127 | the node and its file move to the next hidden name that neither the cache nor the backend has, within ten tries, and nothing else changes; failing changes nothing |
| `OpenFiles.HiddenNameMistaken` | libfuse/lib/fuse.c:4745-4751 | a rename from a name that exists nowhere, onto an open file, succeeds |
| `OpenFiles.FileTable.HiddenNameFor` | libfuse/lib/fuse.c:4073-4110 | the name is the first of at most ten in turn that is free in the cache and in the backend, and none is found if and only if the backend has them all or fails on one |
| `OpenFiles.FileTable.NextHidden` | libfuse/lib/fuse.c:4090-4095 | the search for a counter ends, with the first name in turn that the cache does not have |
| `OpenFiles.FileTable.Open` | libfuse/lib/fuse.c:4909-4945 | one handle more, for the file that the node's name has |
| `OpenFiles.FileTable.Create` | libfuse/lib/fuse.c:4822-4869 | a new file, or the one the backend has under that name, a node for it and one handle more; failing changes nothing |
| `OpenFiles.FileTable.Release` | libfuse/lib/fuse.c:4784-4820 | one handle less; the last one of a hidden node unlinks its file and name, and no other file, name or handle is touched |
| `OpenFiles.HiddenNamesDiffer` | libfuse/lib/fuse.c:4092-4093 | different counters make different hidden names |
| `OpenFiles.HiddenNameSays` | libfuse/lib/fuse.c:4092-4093 | the name is the prefix, eight hexadecimal digits of the node's number and eight of the counter |
| `OpenFiles.HexReadsBack` | libfuse/lib/fuse.c:4092-4093 | the digits of a counter or node id, read as a hexadecimal number, give it back |
| `ByteRangeLocks.NodeLocks.Insert` | libfuse/lib/fuse.c:5443-5515 | the owner holds the requested type on every byte of the request and nothing else changes for anyone; entries stay sorted, disjoint and merged; every entry is what is left of an old one, with its process id, or has the request's process id and covers the request; failing leaves the list alone |
| `ByteRangeLocks.NodeLocks.MakeRoom` | libfuse/lib/fuse.c:5461-5505 | the loop cuts and merges without losing a byte of anyone's, and never needs an entry it has not allocated |
| `ByteRangeLocks.NodeLocks.TrimAt` | libfuse/lib/fuse.c:5478-5497 | the entry keeps exactly its bytes outside the request |
| `ByteRangeLocks.NodeLocks.Conflict` | libfuse/lib/fuse.c:5417-5428 | returns the first clashing entry, if and only if another owner holds some byte of the request with a write on either side |
| `ByteRangeLocks.InsertKeepsExclusion` | libfuse/lib/fuse.c:5417-5515 | inserting a lock that conflicts with nobody keeps exclusion between owners |
| `ByteRangeLocks.EntryIsMaximal` | libfuse/lib/fuse.c:5443-5515 | two normal lists that hold the same have the same entries, process ids apart |
| `ByteRangeLocks.LockFlockRoundTrip` | libfuse/lib/fuse.c:5517-5534 | a lock survives the way to a `struct flock` and back, its owner apart |
| `ByteRangeLocks.FlockCovers` | libfuse/lib/fuse.c:5517-5534 | the lock of a `struct flock` covers exactly its bytes, to the end if the length is zero, with its type and process id |
| `ByteRangeLocks.FlockLockRoundTrip` | libfuse/lib/fuse.c:5517-5534 | a `struct flock` whose range ends within the offsets survives the way to a lock and back |
| `JsonReading.TextReads` | cJSON.c:155-439 | every JSON text with integer numbers (sections 2 to 7 of RFC 8259), whatever its spacing and however its strings are escaped, is read as the value that it stands for, zero bytes apart, and exactly that text is consumed |
| `JsonReading.DocumentReads` | cJSON.c:264-279 | parsing takes spacing before such a text and whatever comes after it |
| `JsonReading.SkipExactly` | cJSON.c:261 | everything up to the first character above 32, or to the end of the string, is skipped |
| `JsonReading.CutIsWhole` | cJSON.c:182 | nothing is left out of a value that is read exactly if there is no zero byte in it |
| `JsonReading.StringReads` | cJSON.c:155-212 | a string is read as the bytes that its characters, short escapes, `\u` escapes and surrogate pairs stand for, zero bytes apart |
| `JsonReading.OddEscapeReads` | cJSON.c:202 | a backslash before a character that is no escape is dropped |
| `JsonReading.BadUnitIsDropped` | cJSON.c:180-182 | a `\u` escape without four hexadecimal digits, or of a second surrogate alone, is dropped |
| `JsonReading.LoneSurrogateIsDropped` | cJSON.c:184-186 | a first surrogate that no `\u` escape follows is dropped |
| `JsonReading.BadPairIsDropped` | cJSON.c:184-188 | a first surrogate and the `\u` escape behind it are both dropped if that is no second surrogate |
| `JsonReading.NumberReads` | cJSON.c:96-115 | a number without fraction and exponent is read as the integer that its digits stand for |
| `JsonReading.LeadingZeroReads` | cJSON.c:101-102 | one zero in front of a number is skipped |
| `JsonReading.ItemReads` | cJSON.c:327-343 | after an item of an array a comma leads to the next one and a bracket ends it, and anything else is an error |
| `JsonReading.MemberReads` | cJSON.c:413-437 | after a member of an object a comma leads to the next one and a brace ends it, and anything else is an error |
| `JsonTruncated.TruncatedIsRefused` | cJSON.c:287-439 | every proper beginning of the text of an array or object, wherever it ends, is refused |
| `JsonTruncated.UnclosedIsRead` | cJSON.c:168-209 | a string need not be closed: it may end with the text |
| `JsonTruncated.NoValue` | cJSON.c:287-299 | what does not begin like a value is refused |
| `JsonTruncated.ColonMissing` | cJSON.c:420 | a name that is not followed by a colon is refused |
| `JsonTruncated.NameMissing` | cJSON.c:158 | a member that does not begin with a string is refused |
| `JsonGrammar.Utf8Decodes` | cJSON.c:192-200 | the bytes written for a `\u` escape are the shortest UTF-8 encoding of its code point (section 3 of RFC 3629) |
| `JsonPrinting.PrintedIsText` | cJSON.c:283-507 | the text of any value at any depth is a JSON text that stands for the value, with no spacing or with exactly the spacing of cJSON's format |
| `JsonPrinting.EscapedIsPiece` | cJSON.c:232-243 | a character is printed as it is, by the letter of the table of short escapes or by its number, in each case a legal piece of a JSON string that stands for it |
| `JsonPrinting.EscapedIsPrintable` | cJSON.c:229-245 | no control character is left in what is printed of a string |
| `JsonPrinting.PrintedReadsBack` | cJSON.c:287-507 | the text of any value at any depth, formatted or not, is read back as that value, zero bytes apart, and exactly that text is consumed |
| `JsonPrinting.PrintParse` | cJSON.c:264-317 | parsing the whole printed text of a storable value gives the value |
| `JsonPrinting.PrintIsInjective` | cJSON.c:283-317 | different values never have the same text |
| `JsonPrinting.QuotedReadsBack` | cJSON.c:155-248 | a quoted string is read back, zero bytes apart |
| `JsonPrinting.IntReadsBack` | cJSON.c:96-138 | a printed integer is read back |
| `JsonText.MeasureEscaped` | cJSON.c:220 | the first pass computes the exact length |
| `JsonText.PrintStringPtr` | cJSON.c:215-248 | the second pass fills the measured buffer exactly, terminator included, with a legal JSON string that stands for the given one and has no control character in it |
| `JsonText.PrintText` | cJSON.c:302-317 | prints what `PrintValue` says |
| `JsonText.PrintArray` | cJSON.c:348-403 | prints what `PrintValue` says |
| `JsonText.PrintObject` | cJSON.c:442-507 | prints what `PrintValue` says |
| `JsonText.PrintFits` | cJSON.c:351-379 | the lengths that are allocated hold the text and its terminator |
| `JsonText.ParseStringText` | cJSON.c:155-212 | reads what `ParseString` says |
| `JsonText.ParseNumberText` | cJSON.c:96-115 | reads what `ParseNumber` says |
| `JsonText.ParseValueText` | cJSON.c:287-299 | reads what `ParseValue` says |
| `JsonText.ParseArrayText` | cJSON.c:320-345 | reads what `ParseValue` says |
| `JsonText.ParseObjectText` | cJSON.c:406-439 | reads what `ParseValue` says |
| `JsonText.PrintAndParse` | cJSON.c:264-317 | printing and then parsing gives the value back |
| `JsonMinify.MinifyPrinted` | cJSON.c:581-596 | minifying the text of a value gives its unformatted text, whatever follows |
| `JsonMinify.MinifyPrint` | cJSON.c:581-596 | minifying the formatted print of a value gives its unformatted print |
| `JsonMinify.MinifyText` | cJSON.c:581-596 | of a JSON text with blanks and comments between its tokens exactly the tokens are left, strings as they stand |
| `JsonMinify.MinifyThenParse` | cJSON.c:581-596 | such a text is read, once minified, as the value that it stands for, zero bytes apart |
| `JsonMinify.CommentEnds` | cJSON.c:591 | a block comment ends where it should if and only if there is no star and slash in it and it does not begin with a slash |
| `JsonMinify.MinifyInPlace` | cJSON.c:581-596 | the loop that rewrites its own buffer leaves there what `Minify` says |
| `EventStream.CutExactly` | debugger.c:155-178 | the scanner cuts an event at its end if and only if the event is legible, formatted or not, whatever follows |
| `EventStream.EventIsCut` | debugger.c:155-178 | events in which no string or name ends in a backslash are cut at their end |
| `EventStream.BackslashLosesEvent` | debugger.c:171-176 | an event with a name that ends in a backslash is not cut at its end |
| `EventStream.StreamIsCut` | debugger.c:152-187 | the concatenated texts of any events are cut into those texts, in order, if and only if every single event is legible |
| `EventStream.FramedIsLegible` | debugger.c:155-178 | events in which no string or name ends in a backslash are all legible |
| `EventStream.EventsArrive` | debugger.c:152-187 | parsed, the chunks of legible events are the events that were written |
| `EventStream.ReadChunk` | debugger.c:155-179 | the inner loop collects exactly the next chunk in a buffer that never overflows |
| `EventStream.ReadChunks` | debugger.c:152-187 | the outer loop hands out exactly the chunks of the stream |
| `OptionText.DecodeJoin` | libfuse/lib/fuse_opt.c:117-332 | decoding a joined list gives back its options, whatever commas and backslashes they contain |
| `OptionText.EmittedDecodes` | libfuse/lib/fuse_opt.c:117-332 | the gathered text decodes to the gathered options, leading empty ones apart, and gathers to itself |
| `OptionText.OctalDecodes` | libfuse/lib/fuse_opt.c:314-320 | a backslash and the three octal digits of any character below 256, whatever follows, are that character |
| `OptionText.GroupDecodes` | libfuse/lib/fuse_opt.c:294-332 | a group whose characters are written as they are, behind a backslash or in octal decodes to the options that it spells |
| `OptionText.EveryTextIsSpelled` | libfuse/lib/fuse_opt.c:294-332 | every text is the spelling of such a group, so this says what every text decodes to |
| `OptionText.EscapedIsWritten` | libfuse/lib/fuse_opt.c:129-135 | an option is emitted with a backslash before each comma and backslash and nowhere else, and so spells itself |
| `OptionVector.ParseGathers` | libfuse/lib/fuse_opt.c:348-396 | the result is the program name, one "-o" group with all options in order, and all other arguments in order; without options a separator with nothing behind it goes |
| `OptionVector.ParseIsIdempotent` | libfuse/lib/fuse_opt.c:348-423 | parsing twice is parsing once |
| `OptionVector.ParseFails` | libfuse/lib/fuse_opt.c:102-110 | parsing fails if and only if the last argument is a "-o" that wants another one, before any separator |
| `OptionVector.AppendOption` | libfuse/lib/fuse_opt.c:117-139 | the buffer asked for holds what was there, a comma if that was something, the option with a backslash before each comma and backslash, and its terminator |
| `OptionVector.Context.ProcessRealOptionGroup` | libfuse/lib/fuse_opt.c:294-332 | decodes in place, the write cursor never passing the read cursor: the options that the group spells are gathered, however their characters are written |
| `OptionVector.Context.ProcessOptionGroup` | libfuse/lib/fuse_opt.c:334-346 | the same on a copy of the group |
| `OptionVector.Context.ProcessOne` | libfuse/lib/fuse_opt.c:348-369 | does what `Processed` says |
| `OptionVector.Context.InsertArg` | libfuse/lib/fuse_opt.c:74-88 | the argument stands at its position and all others keep their order |
| `OptionVector.Context.OptParse` | libfuse/lib/fuse_opt.c:371-396 | computes `Parse` |
| `OptionVector.FuseOptParse` | libfuse/lib/fuse_opt.c:398-423 | computes `Parse`, and leaves the vector alone on error |
| `BufferCopy.CopyOne` | libfuse/lib/buffer.c:224-242 | the bytes arrive as they were, also where the regions overlap, and nothing else changes |
| `BufferCopy.BufVec.Advance` | libfuse/lib/buffer.c:262-276 | the assertions hold and the cursor moves by that many bytes |
| `BufferCopy.FuseBufCopy` | libfuse/lib/buffer.c:278-318 | moves the smaller of the two remaining sizes, which from fresh cursors are the vectors' totals, changing nothing outside the destination, for any cut points and empty buffers; where source and destination do not overlap it moves them byte for byte; the source cursor follows, and the destination cursor does unless the source ends first in a non-empty last buffer |
| `BufferCopy.CursorLeftBehind` | libfuse/lib/buffer.c:309-311 | a copy after which it does not |
| `BufferCopy.FuseBufSize` | libfuse/lib/buffer.c:19-32 | computes `SizeOf` |
| `BufferCopy.SizeMeans` | libfuse/lib/buffer.c:19-32 | the total if all sizes are known and it fits; an unknown size is reported if and only if what follows it adds up to nothing |
| `BufferCopy.UnknownSizeLost` | libfuse/lib/buffer.c:19-32 | two buffers whose unknown size is not reported |

## Left out

- `conf.remember` and the list of nodes that are kept for it, and failing allocations in the node tree: the base case is modelled.
- NodeCache.Cache.NextId: the generation is unbounded; the source's is an unsigned int. It asks for fewer live nodes than there are ids, since the source's loop ends only then.
- PathLocking.TryGetPath: asks that the path be shorter than 4 GiB, since the loop that grows the buffer ends only then.
- The marks and locks of more than 2^30 requests at a time, which the encoding in one integer does not allow for.
- OpenFiles.FileTable.Run: names are pairs of a directory and a name, so directories stay where they are during the run; hard links, forgets and `conf.nopath` are not part of it.
- The buckets of the two hash tables are sequences instead of linked lists.
- JsonText.ParseNumberText: fractions and exponents are refused, since values hold integers; the source reads them as floating-point numbers.
- JsonText.ParseStringText: a text that ends inside an escape is refused, where the source reads on behind the terminator.
- JsonMinify.MinifyInPlace: a literal or a comment that is not closed ends with the text, where the source reads on behind the terminator.
- JsonReading.TextReads: integers have any size; the source computes in floating point and stores 32 bits, so that this says what it does for 32-bit integers. The same holds for `JsonReading.NumberReads`, `JsonPrinting.PrintedIsText`, `JsonPrinting.PrintedReadsBack` and `JsonPrinting.IntReadsBack`; `JsonPrinting.PrintParse` asks for 32 bits.
- The linked list of a value's children in cJSON.
- BufferCopy.FuseBufCopy: says which bytes arrive only where no address of the destination is read or written twice; for overlapping streams the result depends on how the chunks follow each other.
- EventStream.ReadChunk: a stream that ends inside a chunk, where the source reads its end over and over, is reported.
- Option templates, the callback of the option parser and failing allocations there.
- File descriptors and splicing in `libfuse/lib/buffer.c`.
- Timeouts, interrupts, `auto_cache`, modules, the wire format and all reporting around calls into the filesystem, and the GTK programs.
