# Verified models of the system programs

This project models the parts of the repository that hold real algorithms and protocols, and
proves what they are for. Each program is modelled on its own; the kernel calls it makes are
small specifications written next to it.

- **Directory watches** (`Paths`, `DirWorld`, `DirOps`, `DirSync`, `DirExact`, `DirSteady`, `DirUnmount`,
  `DirExamples`, `DirRace`, `EventBuffer`, `DirCache`, `DirService`). `inotify_dtree.c` keeps a slot array of (watch descriptor,
  pathname) in step with directory trees that change. `DirWorld` says on values what every
  function computes, with the cache seen as a map from descriptor to pathname. The class
  `DirCache.DirMonitor` is the program itself, with the slot array, its growth by 200 slots and
  the event loop, and refines `DirWorld`. `DirOps` and `DirSync` prove, for trees as component
  lists and for every operation, that handling its events restores the mirror, without
  a rebuild (`DirSteady`). `DirService` puts the class and these theorems together, and
  `DirExamples` gives small trees on which the exceptional cases occur.
- **Namespace forest** (`Namespaces`, `NamespaceInfo`, `NamespaceDisplay`,
  `DisplayOrder`, `Words`, `WrapText`, `PrefixedLines`).
  The recursive insertion of a namespace with its ancestors, what is displayed and in which
  order, and the two text wrappers, the one of `namespaces_of.go` and the one with a prefix of `view_v2_cgroups.go`.
- **Notification protocols** (`MqThread`, `MqKernel`, `MqSuspend`, `MqFlag`, `Sigchld`).
  Transition systems over the steps of the programs and of their environment, for any number
  of messages, threads and children, with inductive invariants over every run.
- **Shared memory** (`Broadcast`, `BoundedStack`, `StackWakeups`). The batch broadcast of
  `homework/hw10` with its unlocked counter, and the stack of `quiz/quiz3`, again as transition
  systems; `StackWakeups` says how many threads it takes until a wakeup can be wasted.
- **Line readers** (`InputLines`, `LineReader`). The buffered reader and the reader of single
  characters against one specification of lines, for every way reads cut the stream.
- **ACL editor** (`Numerals`, `CStrings`, `AclText`, `AclParser`, `AclEntries`, `AclUpdate`,
  `AclEditor`). The parser that cuts its argument in place, and the update loop with the mask.
- **Seccomp filters** (`Bpf`, `Seccomp`). An interpreter for the instructions used, and three
  filter programs equal to their policies for every system call.
- **Environment** (`EnvSpec`, `Environ`). `unsetenv()` in place and `setenv()` over it.

`Options` and `Sequences` hold what several of them share.

Programs that change state in one thread of control are classes and methods over arrays and
fields, proved against functions on values. Programs whose point is the interleaving of
several threads, processes or signals are state machines: one action for each step that
another party can observe, and theorems over all finite runs.

## Assumptions

Directory watches: root pathnames exist at the start, end in no slash, and none is below
another; the target of a rename does not exist; pathnames have no length limit; nftw() reports
exactly the directories at or below its argument, in any order; descriptors of one inotify
instance are never reused. When no root is left the program exits; the model goes on, with
nothing monitored. Apart from `DirRace`, the events of an operation are read before the next
operation. Strings are values, so the copy that zapSubtree() makes of its argument, lest
clearing a slot change it, has no counterpart: the slot array is updated in place, but the
argument cannot be a pointer into it.

Kernel rules: a message queue notifies only when a message arrives at an empty queue, and
that removes the registration (mq_notify() in chapter 3 of the System Interfaces volume of
IEEE Std 1003.1-2017); a standard signal that is already pending is not queued again;
sigsuspend() unblocks and waits atomically; no signal comes from outside, and no reader is
blocked in mq_receive(). In `Broadcast`, B > 0: with B = 0 and M > 0 the loop of the parent
does not end. fork() succeeds. Allocation failures other than those of `setenv()` are left out.

Characters are single bytes. `uid_t` and the accumulator of a filter have 32 bits, `long` has
64; other integers do not wrap.

## Where the code differs from what is said of it

- The test of `errno` at `inotify_dtree.c:1136` always holds, so a timed-out read subtracts one
  from the byte count. `EventBuffer.BufferOk` carries the short count, and the one event left
  is still handled, once.
- Renaming a root into a directory that is itself monitored loses the moved subtree, and moving
  a directory that has a root below it, which is not even reported, leaves the root's entries
  as they were before: `DirExact.OpMirrorsExactly`.
- When only namespaces with an invisible owner are recorded, no root is known, `rootNS` has the
  key of the invisible entry, and everything is displayed twice:
  `NamespaceDisplay.DisplayedOnceByCalls`.
- The wrapper with a prefix counts the prefix twice on its first line. It keeps the width, but
  can use one line more than needed: `PrefixedLines.PrefixedFewestExactly` says when.
- A default ACL that does not exist yet cannot be made with -m, because the list is checked
  after every entry: `AclUpdate.EmptyAclFails`.
- `mq_notify_sig.c` started on a queue that holds messages waits for ever:
  `MqSuspend.DrainsExactly`.
- The comments of `stack.c` take pthread_cond_signal() to wake a thread that can go on. One
  condition variable serves push() and pop() alike, so from six threads on all can be left
  waiting on a full stack, a pop() among them: `StackWakeups.StrandedExactly`.
- The numeric id 2^32-1 is what the lookup functions return for an error, so the parser
  refuses it: `AclText.AclReadsBack`.
- The comment on the x32 test of two filters speaks of bit 30; the comparison also catches
  numbers with only bit 31 set: `Seccomp.ComparisonCoversX32`.
- When `setenv()` finds no memory it has removed the old entries already:
  `Environ.Environment.Setenv`.

## Model

| member | source | states |
|---|---|---|
| Paths.PrefixTestIsDescendant | tlpi-book/inotify/inotify_dtree.c:596-598 | the string test "prefix, then a slash or the end" holds exactly of the directory itself and its descendants, as component lists |
| Paths.RewriteIsGraft | tlpi-book/inotify/inotify_dtree.c:589-604 | rewriting a cached pathname gives the pathname of the directory after the rename, and leaves all others |
| Paths.GraftInjective | tlpi-book/inotify/inotify_dtree.c:595-609 | a rename to a free name keeps distinct paths distinct |
| Paths.JoinInjective | tlpi-book/inotify/inotify_dtree.c:301-309 | equal pathnames mean the same directory |
| DirWorld.ReinitMirrors | tlpi-book/inotify/inotify_dtree.c:677-717 | from any cache and any watches, and whether or not all roots still exist, a rebuild makes the watches and the cache those of the monitored directories |
| DirWorld.RebuildMirrors | tlpi-book/inotify/inotify_dtree.c:738-757 | whatever makes a handler give up, an event whose descriptor is not cached included, handling it leaves the watches and the cache of the monitored directories |
| DirWorld.OthersIgnored | tlpi-book/inotify/inotify_dtree.c:738-742 | events of files, those that follow the removal of a watch, and moves of a directory that is not a root change nothing |
| DirWorld.TraverseTracks | tlpi-book/inotify/inotify_dtree.c:480-533 | one visit of the tree walk adds just that directory to what is tracked, whether or not it was watched |
| DirSync.MkdirSynced | tlpi-book/inotify/inotify_dtree.c:762-802 | after a mkdir and its events the cache mirrors the trees, wherever it happened |
| DirSync.RmdirSynced | tlpi-book/inotify/inotify_dtree.c:804-816 | after an rmdir and its two events the cache mirrors the trees, and a removed root is no longer listed |
| DirSync.RenameSynced | tlpi-book/inotify/inotify_dtree.c:818-957 | after a rename in, out of, within or outside the trees the cache mirrors them, whether the two events were taken together or apart |
| DirSync.PairSynced | tlpi-book/inotify/inotify_dtree.c:898-926 | a rename whose events are handled together keeps all watches and moves all pathnames |
| DirSync.SplitRenameSynced | tlpi-book/inotify/inotify_dtree.c:860-866 | a rename whose events are handled apart ends in sync too, with new watches |
| DirSync.RootMovedOut | tlpi-book/inotify/inotify_dtree.c:992-1017 | a root moved away is dropped with its whole subtree, and the rest stays in sync |
| DirSync.BurstSynced | tlpi-book/inotify/inotify_dtree.c:959-977 | after any lost events, vanished roots included, the overflow event makes the cache that of the monitored directories |
| DirSync.OpKeepsSynced | tlpi-book/inotify/inotify_dtree.c:726-1026 | any one operation, with its events handled, keeps the cache in sync unless it moves a root into a monitored directory or a directory with a root below it |
| DirExact.ArrivalKeeps | tlpi-book/inotify/inotify_dtree.c:762-802 | an arrival leaves every watch and entry as it was |
| DirExact.KnownArrivalIgnored | tlpi-book/inotify/inotify_dtree.c:775-802 | an arrival whose pathname is cached changes nothing, so it is not entered twice |
| DirExact.RootIntoTreeLosesSync | tlpi-book/inotify/inotify_dtree.c:992-1017 | the first exception always leaves monitored directories without watches |
| DirExact.RootBelowReport | tlpi-book/inotify/inotify_dtree.c:491-496 | a move of a directory with a root below it reports no departure |
| DirExact.RootBelowLosesSync | tlpi-book/inotify/inotify_dtree.c:762-802 | the second exception always leaves wrong entries, whether or not the target is watched |
| DirExact.OpMirrorsExactly | tlpi-book/inotify/inotify_dtree.c:726-1026 | after any operation the watches and the cache are those of the monitored directories if and only if it is neither exception |
| DirExact.OpSyncedExactly | tlpi-book/inotify/inotify_dtree.c:726-1026 | in sync with all roots there, if and only if moreover no root vanished among lost events |
| DirExamples.RootIntoTreeExample | tlpi-book/inotify/inotify_dtree.c:992-1017 | a tree, two roots and a move that is the first exception |
| DirExamples.MovesRootBelowExample | tlpi-book/inotify/inotify_dtree.c:491-496 | trees and moves that are the second, with the target watched and not |
| DirExamples.RootMovedOutExample | tlpi-book/inotify/inotify_dtree.c:992-1017 | a move of a root that is followed |
| DirExact.RunStaysSynced | tlpi-book/inotify/inotify_dtree.c:480-717 | in sync after every sequence of operations, from the first build on |
| DirExact.SyncedIsBijection | tlpi-book/inotify/inotify_dtree.c:150-157 | in sync means: every monitored directory has one entry, with its descriptor and its pathname; every entry is one of them; no pathname occurs twice |
| DirRace.RaceEndsSynced | tlpi-book/inotify/inotify_dtree.c:775-802 | with directories created at any time between the handling of events, no event asks for a rebuild, and the cache is in sync whenever the queue is empty |
| EventBuffer.GroupUpFaithful | tlpi-book/inotify/inotify_dtree.c:894-926 | grouping events loses and reorders nothing, and two adjacent events of one rename are never separated |
| EventBuffer.MaximalGroups | tlpi-book/inotify/inotify_dtree.c:1079-1151 | groups taken one by one from the head of a buffer that is refilled are the groups of the whole stream |
| EventBuffer.ProgressGroups | tlpi-book/inotify/inotify_dtree.c:1079-1151 | what the loop has handled is a prefix of the grouping of everything read, and all of it once the buffer is empty |
| EventBuffer.WantedIsNeeded | tlpi-book/inotify/inotify_dtree.c:1079-1151 | a count of reads that goes on only after a hanging departure, and ends at a read that leaves none, is the number wanted |
| DirCache.DirMonitor.FindWatch | tlpi-book/inotify/inotify_dtree.c:203-211 | the slot of a descriptor, or -1 exactly if it is not cached |
| DirCache.DirMonitor.PathnameToCacheSlot | tlpi-book/inotify/inotify_dtree.c:301-309 | a slot with the pathname, or -1 exactly if it is not cached |
| DirCache.DirMonitor.MarkCacheSlotEmpty | tlpi-book/inotify/inotify_dtree.c:246-255 | removes that entry from the cache and no other |
| DirCache.DirMonitor.FindEmptyCacheSlot | tlpi-book/inotify/inotify_dtree.c:259-281 | the first empty slot, or the first of 200 new ones if there is none; the other slots are kept |
| DirCache.DirMonitor.AddWatchToCache | tlpi-book/inotify/inotify_dtree.c:285-296 | adds exactly this entry to the cache, in that slot |
| DirCache.DirMonitor.TraverseTree | tlpi-book/inotify/inotify_dtree.c:480-533 | refines one visit of the tree walk |
| DirCache.DirMonitor.WatchSubtree | tlpi-book/inotify/inotify_dtree.c:540-572 | refines the walk over a subtree |
| DirCache.DirMonitor.RewriteCachedPaths | tlpi-book/inotify/inotify_dtree.c:580-610 | rewrites in place all pathnames at or below the renamed directory, and nothing else |
| DirCache.DirMonitor.ZapSubtree | tlpi-book/inotify/inotify_dtree.c:616-667 | removes in place exactly the watches and entries at or below the pathname and returns their number; -1 exactly if the kernel does not know one of them |
| DirCache.DirMonitor.Reinitialize | tlpi-book/inotify/inotify_dtree.c:677-717 | refines the rebuild |
| DirCache.DirMonitor.ZapRootDirPath | tlpi-book/inotify/inotify_dtree.c:445-464 | drops the first root with the pathname, and tells the two cases in which the program ends: no such root, and no root left |
| DirCache.DirMonitor.ProcessNextInotifyEvent | tlpi-book/inotify/inotify_dtree.c:726-1026 | handles the group at the head of the buffer and returns its size, the size of the buffer after a rebuild, or -1 exactly for a hanging departure on the first try |
| DirCache.DirMonitor.ProcessInotifyEvents | tlpi-book/inotify/inotify_dtree.c:1039-1152 | terminates; without a rebuild, it makes just the reads that are wanted, up to the first that leaves no departure hanging, and every event read is handled once, in order, with adjacent pairs together; after a rebuild the watches and the cache are those of the monitored directories |
| DirSteady.OpSteady | tlpi-book/inotify/inotify_dtree.c:738-757 | with no events lost, the events of an operation, grouped either way, never make the program give up and rebuild |
| DirUnmount.UnmountsHandled | tlpi-book/inotify/inotify_dtree.c:979-990 | the events of an unmount, in any order, take just the directories they name out of the cache |
| DirUnmount.UnmountTracks | tlpi-book/inotify/inotify_dtree.c:979-990 | and then the watches and the cache are those of the directories that are left |
| DirService.Serve | tlpi-book/inotify/inotify_dtree.c:1039-1152 | an operation, its events delivered by the reads that are wanted, and the loop: the slot array mirrors the trees again, without a rebuild; so too for a rename whose two events come in two reads |
| DirService.ServeApart | tlpi-book/inotify/inotify_dtree.c:1088-1103 | the same when a timeout separates the two events of a rename and two calls of the loop handle them |
| DirService.Start | tlpi-book/inotify/inotify_dtree.c:677-717 | a new monitor mirrors the trees |
| Namespaces.AddNamespaceForest | tlpi-book/namespaces/namespaces_of.go:249-268 | one call keeps the forest and adds the namespace with all its ancestors, and nothing else |
| Namespaces.AddToListForest | tlpi-book/namespaces/namespaces_of.go:274-378 | creating an entry and linking it under its parent keeps the forest, through the recursion |
| Namespaces.AddAllForest | tlpi-book/namespaces/namespaces_of.go:249-378 | after any calls: the recorded namespaces are those named and all their ancestors, and they form a forest without duplicate children |
| Namespaces.ExactlyOneParent | tlpi-book/namespaces/namespaces_of.go:270-378 | everything recorded but the top and the invisible entry is once in exactly one list of children, that of its parent |
| Namespaces.AddAllPids | tlpi-book/namespaces/namespaces_of.go:261-267 | a namespace lists the processes of the calls that named it, in order |
| NamespaceInfos.NamespaceInfo.AddNamespace | tlpi-book/namespaces/namespaces_of.go:249-268 | the method computes the function above, in place |
| NamespaceInfos.NamespaceInfo.AddNamespaceToList | tlpi-book/namespaces/namespaces_of.go:274-378 | likewise |
| NamespaceInfos.AddAll | tlpi-book/namespaces/namespaces_of.go:249-378 | any sequence of calls computes the function above and ends in a forest |
| NamespaceDisplay.DisplayTreeExact | tlpi-book/namespaces/namespaces_of.go:712-729 | displaying a subtree ends and shows each wanted namespace of it once, at its distance from the top |
| NamespaceDisplay.DisplayHierarchiesExact | tlpi-book/namespaces/namespaces_of.go:781-795 | with a known root, everything wanted is shown exactly once, at its depth |
| NamespaceDisplay.NoRootDisplaysTwice | tlpi-book/namespaces/namespaces_of.go:781-795 | without one, everything is shown twice |
| NamespaceDisplay.DisplayedOnce | tlpi-book/namespaces/namespaces_of.go:781-795 | shown once if and only if a root is known |
| NamespaceDisplay.RootKnownExactly | tlpi-book/namespaces/namespaces_of.go:327-336 | a root is known if and only if some namespace added leads up to the top |
| NamespaceDisplay.DisplayedOnceByCalls | tlpi-book/namespaces/namespaces_of.go:781-795 | after any calls, shown exactly once if and only if some namespace added leads up to the top |
| NamespaceDisplay.NoRootExample | tlpi-book/namespaces/namespaces_of.go:338-358 | a namespace and a call after which no root is known |
| DisplayOrder.DisplayTreeOrder | tlpi-book/namespaces/namespaces_of.go:712-729 | in the display of a tree, every shown ancestor comes before its descendants, the lines of each subtree stand together, and siblings come in the order of their list |
| DisplayOrder.DisplayHierarchiesOrder | tlpi-book/namespaces/namespaces_of.go:781-795 | the same for the whole display, the tree of the root before that of the invisible entry |
| DisplayOrder.BeforeOneWay | tlpi-book/namespaces/namespaces_of.go:726-728 | that order is never both ways round, so there is one such display |
| DisplayOrder.ChildrenInOrder | tlpi-book/namespaces/namespaces_of.go:356-374 | over any calls, what is recorded as a child keeps its place, and later ones come after it |
| WrapText.GreedyAhead | tlpi-book/namespaces/namespaces_of.go:653-664 | after every line the greedy layout is at least as far as any layout that fits |
| WrapText.GreedyMinimal | tlpi-book/namespaces/namespaces_of.go:653-664 | the greedy layout has the minimum number of lines |
| WrapText.Wrap | tlpi-book/namespaces/namespaces_of.go:641-667 | the text has the same words, its lines are the lines of the layout that takes each word as long as it fits, and no layout that fits has fewer |
| WrapText.WidthKept | tlpi-book/namespaces/namespaces_of.go:636-639 | each line of the text stays in the width behind its indent or holds one word |
| WrapText.WrapPrefixed | tlpi-book/cgroups/view_v2_cgroups.go:569-597 | the same words, set behind the prefix or its width in blanks, in the layout that takes each word as long as it fits the reduced width |
| WrapText.PrefixedWidthKept | tlpi-book/cgroups/view_v2_cgroups.go:561-567 | each line stays in the width or holds one word |
| PrefixedLines.GreedyOneMore | tlpi-book/cgroups/view_v2_cgroups.go:582-594 | whatever the prefix, at most one line more than any layout that fits the width asked for |
| PrefixedLines.LineCount | tlpi-book/cgroups/view_v2_cgroups.go:582-594 | the number of lines, computed from the words, the prefix and the width |
| PrefixedLines.PrefixedFewestExactly | tlpi-book/cgroups/view_v2_cgroups.go:582-594 | as few lines as the width asked for allows if and only if the first line, ended too early, leaves as many lines to come as ended where it could |
| PrefixedLines.PrefixedNotFewest | tlpi-book/cgroups/view_v2_cgroups.go:582-587 | a text that fits one line and is set on two |
| Words.FieldsAppend | tlpi-book/namespaces/namespaces_of.go:645 | the words of a text joined at white space are the words of its parts |
| MqKernel.ReceivedConserves | tlpi-book/pmsg/mq_notify_sig.c:75-76 | whichever message is received, it leaves the queue and is counted once |
| MqThread.StepInv | tlpi-book/pmsg/mq_notify_via_thread.c:21-69 | every step of every thread, of main and of the senders keeps the invariant: the registration is with the kernel or with one thread on its way to renew it, and a nonempty queue has a drainer |
| MqThread.NoMessageLost | tlpi-book/pmsg/mq_notify_via_thread.c:46-84 | in every run: no registration fails, no two threads are about to register, a nonempty queue has an unfinished drainer, and when all have finished all messages sent were received once and the registration stands |
| MqThread.DrainingEnds | tlpi-book/pmsg/mq_notify_via_thread.c:35-41 | without new messages the threads take only so many steps |
| MqThread.QuietMeansDrained | tlpi-book/pmsg/mq_notify_via_thread.c:46-55 | they stop only when everything is received |
| MqSuspend.StepInv | tlpi-book/pmsg/mq_notify_sig.c:64-80 | every step keeps the registration a token |
| MqSuspend.EmptyStartLosesNothing | tlpi-book/pmsg/mq_notify_sig.c:51-80 | in every run from an empty queue: at sigsuspend() exactly one of registered and pending, the second if there are messages; nothing lost or received twice |
| MqSuspend.WorkEnds | tlpi-book/pmsg/mq_notify_sig.c:69-80 | without new messages the program takes only so many steps |
| MqSuspend.OnlyWaitingStops | tlpi-book/pmsg/mq_notify_sig.c:69-80 | it stops only in sigsuspend() with everything received |
| MqSuspend.MessageAtStartBlocks | tlpi-book/pmsg/mq_notify_sig.c:64-70 | with a message at the first registration nothing is ever received |
| MqSuspend.DrainsExactly | tlpi-book/pmsg/mq_notify_sig.c:51-80 | a waiting program has received everything in every run, if and only if it starts on an empty queue |
| MqFlag.StepInv | tlpi-book/pmsg/mq_notify_via_signal.c:60-80 | every step, with the signal delivered anywhere, keeps the token |
| MqFlag.LosesNothing | tlpi-book/pmsg/mq_notify_via_signal.c:24-80 | in every run from any queue: at the loop head, with the signal delivered, the flag is set or the program is registered on an empty queue with all received |
| MqFlag.WorkEnds | tlpi-book/pmsg/mq_notify_via_signal.c:60-80 | without new messages the steps are bounded by the turns of the loop |
| Sigchld.StepInv | tlpi-book/procexec/multi_SIGCHLD.c:35-103 | every step of parent, handler and children keeps: the counter is the number of children not reaped, a zombie is announced or being looked for |
| Sigchld.NoChildMissed | tlpi-book/procexec/multi_SIGCHLD.c:99-106 | in every run: waiting with nothing pending means no zombie and a running child; the exit comes with all reaped, after at least one and at most n signals |
| Sigchld.RunsEnd | tlpi-book/procexec/multi_SIGCHLD.c:80-103 | a run with n children has at most 8n + 2 steps |
| Sigchld.OnlyExitStops | tlpi-book/procexec/multi_SIGCHLD.c:99-103 | a run that cannot go on has ended with the exit, all children reaped: the parent never waits for ever |
| Broadcast.StepInv | homework/hw10/program.c:42-58 | every step keeps each child's account: what it was told of is added, on its way, or dropped |
| Broadcast.NeverTooMany | homework/hw10/program.c:142-179 | in every run each batch announced has B messages or all that are left, no child counts more than M, and the shared counter never exceeds M * N |
| Broadcast.CountedExactly | homework/hw10/program.c:142-182 | at the end what was added and what was dropped make up M * N, and the counter falls short of what was added if and only if increments overlapped; so it is M * N if and only if nothing was dropped and none overlapped |
| BoundedStack.StepInv | quiz/quiz3/stack.c:17-82 | every step, spurious wakeups included, keeps mutual exclusion, the data, the logs and the number of signals consistent |
| BoundedStack.LegalConserves | quiz/quiz3/stack.c:31-70 | a legal LIFO history pops and holds exactly what it pushed |
| BoundedStack.RunsAreStackRuns | quiz/quiz3/stack.c:6-83 | in every run: no access outside the buffer; operations in critical-section order are a run of a bounded LIFO stack that agrees with what each thread got back; pushed is popped plus stacked; each operation has signalled once |
| BoundedStack.WaitsExactly | quiz/quiz3/stack.c:24-28 | in every run a thread that tests waits if and only if the stack of the history is full, for push(), or empty, for pop() |
| BoundedStack.OnlyWaitingStops | quiz/quiz3/stack.c:17-82 | in every run the threads stop exactly where each is out or waits: the mutex is never lost |
| StackWakeups.ActionKeeps | quiz/quiz3/stack.c:24-37 | with at most five threads every step keeps: the operations on their way suffice for those who wait |
| StackWakeups.FewAreNotStranded | quiz/quiz3/stack.c:24-37 | in no run of at most five threads do all stop while one that waits could go on |
| StackWakeups.SixCanBeStranded | quiz/quiz3/stack.c:24-77 | with six or more there is a run that does, with a pop() waiting on a full stack |
| StackWakeups.StrandedExactly | quiz/quiz3/stack.c:24-77 | so it can happen if and only if there are at least six threads |
| InputLines.LinesExactly | tlpi-book/lib/read_line_buf.c:25-27 | the lines of a stream are the one way to cut it so that each ends at its only newline, none lost or doubled |
| InputLines.CallsHandOutLines | tlpi-book/lib/read_line_buf.c:25-27 | successive calls hand out the lines in turn, each cut to n, and then nothing |
| LineReader.ReadLineBuf.ReadLine | tlpi-book/lib/read_line_buf.c:29-71 | takes the next line, stores its first n characters, leaves the rest of the stream; error exactly for bad arguments or if the last read made failed, which loses part of the line; no read of which it uses nothing |
| LineReader.ReadLineBuf.Refill | tlpi-book/lib/read_line_buf.c:49-58 | reading on does not change what is still to be handed out; error exactly if the read failed; a count of zero means the end |
| LineReader.ReadLineBuf.Fetch | tlpi-book/lib/read_line_buf.c:60-64 | takes one character, stored only if there is room |
| LineReader.ReadLine | tlpi-book/lib/read_line.c:17-61 | takes the next line, stores its first n - 1 characters and a NUL, or nothing at the end; interrupted reads do not show; error exactly if the last read made failed otherwise, which loses what was taken of the line |
| LineReader.ServedIs | tlpi-book/lib/read_line_buf.c:29-71 | readLineBuf() of size n and readLine() of size n + 1 hand out the same characters of the line and leave the same stream |
| LineReader.CallsServeLines | tlpi-book/lib/read_line_buf.c:29-71 | successive calls of either reader, with any reads behind them, hand out the lines of the stream in turn, each cut to n, and then nothing |
| LineReader.ReadLines | tlpi-book/lib/read_line_buf.c:29-71 | a caller that reads any number of lines, over reads that do not fail, gets the lines of the stream in turn, each cut to n, and then nothing |
| Numerals.StrtolUndoesDecimal | tlpi-book/users_groups/ugid_functions.c:37-39 | a decimal numeral is read back as its number, to its end |
| Numerals.StrtolReadsAll | tlpi-book/users_groups/ugid_functions.c:37-39 | white space, a sign and digits are read to their end, as the number they stand for in the range of a long |
| Numerals.OnlyNumeralsReadAll | tlpi-book/users_groups/ugid_functions.c:37-39 | nothing else is read to its end |
| AclText.EntryReads | tlpi-book/acl/acl_update.c:69-164 | an entry with any tag name, qualifier and permissions is read as what it means: a user by number or by name among the users, a group among the groups, each permission that is mentioned; refused if it means nothing |
| AclText.AcceptedIsWritten | tlpi-book/acl/acl_update.c:77-112 | every entry that is accepted has that form |
| AclText.PermsOfIs | tlpi-book/acl/acl_update.c:139-161 | permissions are accepted if and only if each character is one of r, w, x and -, and grant what is mentioned |
| AclText.AclReads | tlpi-book/acl/acl_update.c:170-199 | a list is read as the entries it means, in order, if and only if each means one and there are at most 10000 |
| AclText.AcceptedListIsWritten | tlpi-book/acl/acl_update.c:170-199 | every text that is accepted is such a list |
| AclText.EntryReadsBack | tlpi-book/acl/acl_update.c:69-164 | an entry written with its number means that entry and no other, unless its id is 2^32-1 or it lacks or has permissions against the option |
| AclText.AclReadsBack | tlpi-book/acl/acl_update.c:170-199 | a written list of canonical entries reads back if and only if it has at most 10000 entries, permissions as the option asks, and no id 2^32-1 |
| AclText.AcceptedReadsBack | tlpi-book/acl/acl_update.c:170-199 | whatever text is accepted, its entries can be written in any style and are read back |
| AclParser.ReadPerms | tlpi-book/acl/acl_update.c:139-161 | the set of permission characters, or failure at a bad one |
| AclParser.ReadKey | tlpi-book/acl/acl_update.c:100-135 | tag type and qualifier, from a number or a name, as specified |
| AclParser.CutFields | tlpi-book/acl/acl_update.c:77-88 | cuts the entry in place at its first two colons and changes nothing outside it |
| AclParser.ParseEntrySpec | tlpi-book/acl/acl_update.c:69-164 | accepts exactly the specified entries, stores them in its element only, and without -m leaves the permissions there |
| AclParser.LoopReadsAcl | tlpi-book/acl/acl_update.c:177-198 | reading entry by entry with the limit checked on the way is reading the list of all pieces |
| AclParser.ParseACL | tlpi-book/acl/acl_update.c:170-199 | the count and the entries in the array, or -1, exactly as specified |
| AclEntries.SetKeyLookup | tlpi-book/acl/acl_update.c:401-417 | changing or creating an entry binds its key and no other |
| AclEntries.DeleteKeyLookup | tlpi-book/acl/acl_update.c:394-397 | deleting an entry unbinds its key and no other |
| AclEntries.UnionIs | tlpi-book/acl/acl_update.c:420-424 | the mask grants what some entry of the group class grants |
| AclUpdate.StepIs | tlpi-book/acl/acl_update.c:391-424 | what one entry of the list does to every key and to the mask |
| AclUpdate.RunIs | tlpi-book/acl/acl_update.c:391-433 | a successful run keeps keys unique, binds named keys to their last permissions or removes them, leaves others alone, and sets the mask to the union |
| AclUpdate.MaskGrants | tlpi-book/acl/acl_update.c:420-424 | after a run the recalculated mask grants exactly what some named user, named group or the owning group is granted |
| AclUpdate.AppliedIsLongest | tlpi-book/acl/acl_update.c:391-433 | the entries applied before the program gives up are the longest part of the list on which a run succeeds |
| AclUpdate.RemoveAfterModify | tlpi-book/acl/acl_update.c:391-433 | -x after -m with one list removes the named keys and leaves the others as before both |
| AclUpdate.ModifyTwice | tlpi-book/acl/acl_update.c:391-433 | -m again changes nothing |
| AclUpdate.ModifySucceedsExactly | tlpi-book/acl/acl_update.c:420-429 | from any ACL with unique keys, -m succeeds if and only if its first entry completes the required ones and a mask that is needed is recalculated, present, or named in time |
| AclUpdate.RemoveSucceedsExactly | tlpi-book/acl/acl_update.c:394-429 | from any ACL with unique keys, -x succeeds if and only if the required entries are there, none is named and, with -n, no mask that is still needed |
| AclUpdate.EmptyAclFails | tlpi-book/acl/acl_update.c:384-429 | from an empty default ACL every list fails |
| AclEditor.Acl.FindEntry | tlpi-book/acl/acl_update.c:205-259 | the first entry with the tag type and, for named ones, the qualifier |
| AclEditor.Acl.SetPerms | tlpi-book/acl/acl_update.c:263-286 | replaces the permissions of that entry only |
| AclEditor.Acl.Modify | tlpi-book/acl/acl_update.c:401-417 | changes or creates the entry |
| AclEditor.Acl.Remove | tlpi-book/acl/acl_update.c:394-397 | deletes the entry if it is there |
| AclEditor.Acl.Update | tlpi-book/acl/acl_update.c:391-433 | computes the specified run, gives up where it does, and leaves in the file what the longest part of the list that succeeds makes of the ACL |
| Bpf.CheckedReturnsFrom | tlpi-book/seccomp/seccomp_control_open.c:45-107 | any program whose jumps stay inside and that ends in a return, returns within its length, with one of its own values |
| Bpf.StepsExec | tlpi-book/seccomp/seccomp_control_open.c:45-107 | stepping as long as the program returns what following its jumps gives |
| Seccomp.OpenFilterIsPolicy | tlpi-book/seccomp/seccomp_control_open.c:45-102 | for every call: killed outside the native ABI or with O_CREAT, ENOTSUP for writing, else allowed |
| Seccomp.ComparisonCoversX32 | tlpi-book/seccomp/seccomp_control_open.c:60-63 | what the x32 test catches |
| Seccomp.Halves | tlpi-book/seccomp/seccomp_arg64.c:71-91 | comparing the two halves compares the 64-bit number |
| Seccomp.SeekFilterIsPolicy | tlpi-book/seccomp/seccomp_arg64.c:45-94 | lseek() is allowed exactly for unsigned offsets up to 1000, with errno 1 or 2 by size |
| Seccomp.NotifyFilterIsPolicy | tlpi-book/seccomp/seccomp_multiarch.c:111-185 | mq_notify() fails with its number in each of the three ABIs, all else is allowed, unknown ABIs are killed |
| EnvSpec.WithoutRemoves | tlpi-book/proc/setenv.c:32-45 | removing a name removes all its entries and no other variable |
| EnvSpec.SetIs | tlpi-book/proc/setenv.c:61-75 | setting leaves exactly one entry for the name, with the value, and all others as they were, in order |
| EnvSpec.SetTwice | tlpi-book/proc/setenv.c:61-75 | the last setting wins |
| Environ.Environment.Shift | tlpi-book/proc/setenv.c:38-39 | deletes one element of the null-terminated array in place |
| Environ.Environment.Unsetenv | tlpi-book/proc/setenv.c:18-48 | refuses bad names, else filters the array in place, in order |
| Environ.Environment.Setenv | tlpi-book/proc/setenv.c:50-76 | every outcome: refused, left alone, set, or out of memory with the old entries gone |

## Left out

- Printing, logging, colours, options, usage texts and interactive commands: user interface.
- MqThread.NoMessageLost: message priorities and contents are not modelled; any message of the queue may be received next.
- MqThread, MqSuspend, MqFlag, Sigchld, Broadcast, BoundedStack and StackWakeups are step relations on values, not methods: what matters there is the interleaving with other parties, which a method does not show.
- Sigchld.OnlyExitStops: failing fork() and waitpid() calls are not modelled.
- Broadcast.NeverTooMany: message texts, which a later batch may overwrite before a child reads them, are not modelled.
- BoundedStack.RunsAreStackRuns: a thread that waits need not be woken; StackWakeups.StrandedExactly says when all can be left waiting.
- DirCache.DirMonitor.ProcessInotifyEvents: a read that fails otherwise than by the timeout ends the program and is not modelled, and neither is a second descriptor opened by a rebuild in the middle of the reads.
- DirSync.OpKeepsSynced: renames over an existing directory and changes made while nftw() is walking are not among the operations; an unmount is treated apart, in DirUnmount, and the directory that appears at the mount point after it has no watch.
- DirExact.RunStaysSynced: runs stop at an exception of `DirExact.OpSyncedExactly`; what happens after one is not modelled.
- DirCache.DirMonitor.ZapSubtree: an argument that points into the array it clears, against which the program copies it, is not modelled.
- DirCache.DirMonitor.RewriteCachedPaths: pathnames longer than PATH_MAX, which the program truncates, are not modelled.
- NamespaceDisplay.DisplayTreeExact: the tree displayed for one process, creator ids and id maps are not modelled.
- WrapText.Wrap: text is a sequence of single-byte characters.
- LineReader.ReadLineBuf.ReadLine: a stream that goes on after its end, as a terminal can, is not modelled.
- AclEditor.Acl.Update: a failing write of the file and the order in which libacl keeps entries are not modelled; no property depends on the order.
- Bpf.CheckedReturnsFrom: only the instructions the three filters use are modelled.
- Environ.Environment.Putenv: the C library's own function, given by what it does to the list of entries.
- The other filters, namespace programs and line-oriented helpers of the repository repeat easier cases of what is here.
