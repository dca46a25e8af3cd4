# LMDB services: a verified model

A Dafny model of the parts of this repository in which state, interleaving or arithmetic make the code hard
to judge by reading, with proofs of what they keep over whole runs.

| files | models |
|---|---|
| `Guard.dfy` | `CSWMRGuard`, the single-writer/multi-reader lock: any number of threads, interleaved at the atomic pieces of its three methods (a critical section, a wait on a semaphore, a release that happens after the critical section is left) |
| `Lifetimes.dfy`, `LifetimeForest.dfy`, `NativeLedger.dfy`, `DisposeLaws.dfy`, `AbortLaws.dfy`, `DisposeTrace.dfy`, `EnvTrace.dfy`, `LifetimeTheorems.dfy`, `LifetimeProtocol.dfy`, `LifetimeSteps.dfy` | transactions, cursors and the environment of LMDBNet: their events, and the native calls they make |
| `Registry.dfy`, `RegistryLaws.dfy`, `RegistrySteps.dfy` | the worker-node registry of MyServer |
| `Base64.dfy`, `Base64Laws.dfy` | `base64_encode` and `base64_decode` (sections 3.5 and 4 of RFC 4648) |
| `ContainerBuffer.dfy`, `StreamLaws.dfy`, `StreamSteps.dfy`, `InteropStream.dfy` | the in-memory stream buffer with its state manager, and the `xsgetn` loop over it |
| `AsyncQueue.dfy` | the queue that serialises asynchronous file operations |
| `HandleOwners.dfy`, `OwnerLaws.dfy` | the movable C++ wrappers that own native environments, transactions and cursors |
| `QueryParameters.dfy` | the query string of the web server |
| `Wrappers.dfy`, `Strings.dfy` | an option type; searching a string for a character |

Each component has the same two layers. The operations are given as functions on values, and the imperative
code of the source as methods of a class (or loops over arrays) proved to compute those functions. What the source
promises is then proved about the functions, for every input and over every run; and what one call leaves and answers
is said once more without them, field by field (the `...Exactly` lemmas). `dafny verify dfyconfig.toml` checks
the whole project.

## What was found

Several natural statements are false of the code as it is. For these the model gives the exact condition under which
they hold, and a run from the initial state in which they do not.

- The lock's tokens are not addressed. A sleeping reader can be passed over by all tokens there are and all promised, if
  and only if some reader waits without one (`Guard.ReaderPassedOverExactly`); so a reader that asks late can take the
  token promised to an earlier one, which waits on behind a queued writer (`Guard.LateReaderTakesToken`).
- LMDBNet looks neither at the state of a transaction before it finishes it, nor at open cursors, nor whether the parent
  of a new transaction is disposed. Two conditions are exact for a step from good order. `KeepsRules` holds if and only if
  the native rules, as listed at the head of `NativeLedger.dfy`, are kept by the calls made so far
  (`LifetimeProtocol.RulesExactly`). `Allowed` holds if and only if the step also ends in good order, in which all events
  hold their listeners, what is live has a live owner, and every live object stands in the ledger with a handle that is
  still to be given back (`LifetimeProtocol.ProtocolIsExact`). They differ exactly when a child is begun of a disposed
  parent, which the library takes for a transaction of its own, and when a write transaction is finished over the cursor
  of an object that will close it again (`LifetimeProtocol.RulesButNotOrder`). Three runs leave good order: a child is
  committed and its parent finished before the child is disposed (`LifetimeProtocol.CommittedChildIsAbortedAgain`), a
  cursor is disposed after its write transaction was committed (`LifetimeProtocol.CursorClosedAfterCommit`), and a child
  is begun of a disposed transaction (`LifetimeProtocol.ChildOfDisposedParent`); the first two break the rules.
- A step of the registry lets two nodes share a name or an address exactly when it inserts a node whose name or address
  was taken after it was checked (`RegistryLaws.DistinctExactly`). Without a check that passes while a clashing
  registration is under way it never happens (`RegistryLaws.ApartExactly`, `RegistryLaws.RunKeepsDistinct`); with one it
  does (`RegistryLaws.RaceFromEmpty`).
- `get-node` binds a database to a second node exactly when it meets an inactive node before the node that serves it
  (`RegistryLaws.UniqueBindingExactly`, `RegistryLaws.SecondNodeForOneDatabase`).
- An active node serves no database exactly after `get-node` with an empty name on a node that was deactivated while it
  served one (`RegistryLaws.ActiveServesExactly`, `RegistryLaws.ActiveNodeForNothing`).

Other results say how two operations that look alike differ.

- `alloc` leaves zeros behind for the part of a grant that is not committed, where `putn` leaves nothing
  (`StreamLaws.GrantIsPutN`); the end-of-file flag differs between one read and an `xsgetn` that delivers the same
  (`InteropStream.XsGetNOfContainer`); `ungetc` after a `bumpc` at the end steps back one character too many
  (`StreamLaws.UngetUndoesBump`).
- A reader can be overtaken by any number of writers (`Guard.ReaderOvertakenByAnyNumberOfWriters`), as the comment in the
  source warns, where a queued writer is granted in bounded time (`Guard.QueuedWriterGrantedInTime`).
- A move assignment finishes nothing: the handle assigned over is finished when the source of the move is destroyed, and
  not before, however long the program goes on (`OwnerLaws.AssignedOverIsFinishedLater`).
- An environment that is disposed without having been opened keeps its native handle
  (`LifetimeProtocol.EnvClosedIffOpened`).

## Model

| member | source | states |
|---|---|---|
| `Guard.CSWMRGuard.WaitToReadEnter` | MySharedStuff/CSWMRGuard.cpp:38-59 | the critical section of `WaitToRead`: the new counters and whether the thread must wait are those of `RegisterReader` |
| `Guard.CSWMRGuard.WaitToWriteEnter` | MySharedStuff/CSWMRGuard.cpp:72-93 | the critical section of `WaitToWrite`, as `RegisterWriter` |
| `Guard.CSWMRGuard.DoneEnter` | MySharedStuff/CSWMRGuard.cpp:105-155 | the critical section of `Done`: access is handed to one queued writer, else to all waiting readers, before any token exists, as `Leave` |
| `Guard.CSWMRGuard.DoneRelease` | MySharedStuff/CSWMRGuard.cpp:157-161 | the release of the semaphore, a step of its own, as `Post` |
| `Guard.StepKeepsInvariant` | MySharedStuff/CSWMRGuard.cpp:38-162 | every atomic step keeps: readers inside, promised and in tokens add up to max(active, 0); writers likewise to 1 exactly when active is -1; every sleeper is counted as waiting or has a token on its way; nobody waits on a free lock |
| `Guard.RunKeepsInvariant` | MySharedStuff/CSWMRGuard.cpp:38-162 | the invariant over every run of any number of threads |
| `Guard.MutualExclusion` | MySharedStuff/CSWMRGuard.cpp:38-162 | in every run, a writer inside is alone inside |
| `Guard.ServingStepExists` | MySharedStuff/CSWMRGuard.cpp:44-66 | no deadlock: while any thread is not outside, some wake-up, release or `Done` is enabled |
| `Guard.QuietIffAllOutside` | MySharedStuff/CSWMRGuard.cpp:38-162 | nothing is left to serve if and only if every thread is outside: no wake-up is lost |
| `Guard.AllOutsideMeansFree` | MySharedStuff/CSWMRGuard.cpp:5-32 | with everyone outside the lock is as the constructor left it, which the destructor checks |
| `Guard.Drains` | MySharedStuff/CSWMRGuard.cpp:38-162 | once requests stop, a bounded number of steps is left, and a run that cannot go on has let every thread out and freed the lock |
| `Guard.QueuedWriterBarsEntry` | MySharedStuff/CSWMRGuard.cpp:44-56 | at every moment of every run at which a writer is queued, no reader and no second writer is let in directly |
| `Guard.QueuedWriterGrantedInTime` | MySharedStuff/CSWMRGuard.cpp:79-139 | whatever requests arrive, a queued writer is granted at the latest by the max(active, 1)-th further `Done` |
| `Guard.FreedLockAdmitsAllReaders` | MySharedStuff/CSWMRGuard.cpp:140-147 | a `Done` that frees the lock with no writer queued admits every waiting reader at once |
| `Guard.ReaderOvertakenByAnyNumberOfWriters` | MySharedStuff/CSWMRGuard.cpp:125-139 | for every n there is a run in which one waiting reader is overtaken by n writer grants and still waits |
| `Guard.ReaderPassedOverExactly` | MySharedStuff/CSWMRGuard.cpp:61-66 | in every state that keeps the invariant, the tokens there are and those promised can all go to readers other than a given sleeping one if and only if some reader waits without a token |
| `Guard.LateReaderTakesToken` | MySharedStuff/CSWMRGuard.cpp:157-161 | a run from the initial state in which a late reader takes the token promised to an earlier one, which is left waiting |
| `Lifetimes.Session.Abort` | LMDBNet/LMDBTransaction.cs:271-276 | state, announcement to the subscribers, native abort, as `AbortTxn` |
| `Lifetimes.Session.RaiseStateChanging` | LMDBNet/LMDBTransaction.cs:54-65 | the subscribers of the moment abort in order, as `AbortEach` |
| `Lifetimes.Session.Commit` | LMDBNet/LMDBTransaction.cs:259-264 | state, announcement, native commit, as `CommitTxn` |
| `Lifetimes.Session.DisposeObject` | LMDBNet/LMDBTransaction.cs:310-333 | unsubscribe, dispose the subscribers, abort if unfinished, clear the handle; of a cursor: close, clear, unsubscribe; as `Dispose` |
| `Lifetimes.Session.RaiseDisposing` | LMDBNet/LMDBEnvironment.cs:252-253 | the snapshot of the subscribers is disposed in order although they unsubscribe meanwhile, as `DisposeEach` |
| `Lifetimes.Session.DisposeEnvironment` | LMDBNet/LMDBEnvironment.cs:244-263 | as `DisposeEnv` |
| `Lifetimes.Session.BeginTransaction` | LMDBNet/LMDBTransaction.cs:28-47 | a new active transaction, the last subscriber of its environment and parent; begun by a transaction, or by the environment without a parent, which throws if it is not open |
| `Lifetimes.Session.BeginTransactionInEnv` | LMDBNet/LMDBEnvironment.cs:164-170 | begun by the environment with a parent, as `BeginInEnv`: throws if it is not open, and what it begins is pinned by `LifetimeSteps.BeginInEnvExactly` |
| `Lifetimes.Session.CreateCursor` | LMDBNet/LMDBCursor.cs:21-33 | a new cursor, the last subscriber of its transaction |
| `Lifetimes.Session.ResetTxn` | LMDBNet/LMDBTransaction.cs:230-237 | throws unless read-only |
| `Lifetimes.Session.RenewTxn` | LMDBNet/LMDBTransaction.cs:242-252 | throws unless read-only and reset |
| `LifetimeSteps.BeginExactly` | LMDBNet/LMDBTransaction.cs:28-47 | a begin adds exactly one transaction, active, with the next handle, the flag and the parent given; it becomes the last listener of its environment and of both events of its parent; exactly one native begin is made, on their handles; all else stays. Without a parent and without an open environment nothing changes |
| `LifetimeSteps.BeginInEnvExactly` | LMDBNet/LMDBEnvironment.cs:164-170 | the environment hands parent and flag on: if it is open exactly that happens, whatever the state of the parent; if not, nothing changes |
| `LifetimeSteps.OpenCursorExactly` | LMDBNet/LMDBCursor.cs:21-33 | exactly one cursor is new, the last listener of the disposal of its transaction, with one native open on the handle of that |
| `LifetimeSteps.ResetExactly` | LMDBNet/LMDBTransaction.cs:230-237 | of a read-only transaction exactly the state changes, to Reseted, with one native reset; of another nothing does |
| `LifetimeSteps.RenewExactly` | LMDBNet/LMDBTransaction.cs:242-252 | of a read-only and reset transaction exactly the state changes, to Active, with one native renewal; of another nothing does |
| `LifetimeSteps.OpenEnvExactly` | LMDBNet/LMDBEnvironment.cs:126-144 | an environment that is not open is opened by one native call on its handle; an open one is left as it is |
| `LifetimeSteps.WithoutExactly` | LMDBNet/LMDBTransaction.cs:315-320 | unsubscribing takes the last occurrence of the listener and keeps the order of the others |
| `LifetimeSteps.FinishAlways` | LMDBNet/LMDBTransaction.cs:259-276 | from every heap, in good order or not: `Commit` and `Abort` leave their transaction in the state of that name, the native call of that name on its handle comes last, and all else they do is to abort younger transactions |
| `LifetimeSteps.DisposeAlways` | LMDBNet/LMDBTransaction.cs:310-333 | from every heap: the object is left disposed; a cursor makes its own close and no other call, an unfinished transaction its own abort as the last call, a finished one none; only younger objects are disposed or aborted with it |
| `LifetimeSteps.DisposeEnvAlways` | LMDBNet/LMDBEnvironment.cs:244-263 | from every heap: the environment is left closed and without a handle, its own close is the last call if it was open and is not made otherwise; a second disposal does nothing |
| `NativeLedger.HandlesConserved` | Include/lmdb.h:1034-1060 | under the native rules a transaction handed out has ended or is open, a cursor is closed, freed by the end of its write transaction or open, each once |
| `NativeLedger.CallsUseOpenHandles` | Include/lmdb.h:977-1060 | the rules in terms of the calls made before: every transaction handle is used between its begin and its end only, a cursor is closed once, new handles are new, and the environment is closed once, after everything begun has ended |
| `DisposeLaws.DisposeEffect` | LMDBNet/LMDBTransaction.cs:310-333 | `Dispose`, also in the middle of other disposals, disposes exactly the live objects at and under its target and leaves all events and the ledger in order |
| `DisposeLaws.DisposeEachEffect` | LMDBNet/LMDBTransaction.cs:322 | the same of raising `Disposing` on any list of objects, which reaches some of them twice |
| `DisposeTrace.DisposeCalls` | LMDBNet/LMDBTransaction.cs:310-333 | the native calls of one `Dispose` are the releases of the live objects at and under it, in post-order |
| `LifetimeTheorems.DisposeDisposesSubtree` | LMDBNet/LMDBTransaction.cs:310-333 | from every state in order `Dispose` is allowed, leaves nothing live under its target and touches nothing else |
| `LifetimeTheorems.DisposeTwiceIsOnce` | LMDBNet/LMDBTransaction.cs:312-313 | `Dispose` is idempotent, and after it so is the disposal of everything under its target |
| `LifetimeTheorems.DisposeCallsInPostOrder` | LMDBNet/LMDBCursor.cs:350-364 | each live descendant is released exactly once, before its owner |
| `LifetimeTheorems.DisposeEnvIsGood` | LMDBNet/LMDBEnvironment.cs:244-263 | `mdb_env_close` comes last, when every transaction and cursor handle has been given back |
| `LifetimeTheorems.DisposeEnvCallsInPostOrder` | LMDBNet/LMDBEnvironment.cs:252-260 | disposing an opened environment releases tree after tree in post-order, each live object exactly once although the snapshot reaches nested children again, and then closes the environment |
| `LifetimeTheorems.FinishIsPostOrder` | LMDBNet/LMDBTransaction.cs:259-276 | `Commit` and `Abort` abort the live transactions under the target in post-order, then finish the target; none is left Active or Reseted and nothing else changes |
| `LifetimeTheorems.FinishIsGood` | LMDBNet/LMDBTransaction.cs:54-65 | if all transactions at and under the target are unfinished, and none of their live cursors is one of a write transaction, everything stays in order |
| `LifetimeTheorems.FinishBreaksRules` | LMDBNet/LMDBTransaction.cs:271-276 | if one of them is finished already, the calls break the rules |
| `LifetimeTheorems.FinishOfDisposedBreaksRules` | LMDBNet/LMDBTransaction.cs:271-276 | so does finishing a disposed transaction |
| `LifetimeTheorems.FinishFreesCursor` | Include/lmdb.h:1413-1436 | if a live cursor is one of a write transaction, its object is left with a freed handle, and any calls that close it later break the rules, as the disposal of the object does |
| `LifetimeTheorems.SparedCursorOutlivesTxn` | Include/lmdb.h:1415-1417 | where finishing is allowed, the cursors left open, those of read-only transactions, may still be disposed afterwards |
| `LifetimeProtocol.RulesExactly` | LMDBNet/LMDBTransaction.cs:28-333 | a step from good order keeps the native rules of the ledger if and only if `KeepsRules` holds |
| `LifetimeProtocol.ProtocolIsExact` | LMDBNet/LMDBTransaction.cs:28-333 | a step from good order ends in good order, which demands live owners and no freed handle beside the native rules, if and only if the client protocol allows it |
| `LifetimeProtocol.RulesButNotOrder` | LMDBNet/LMDBTransaction.cs:44-45 | a step keeps the rules and leaves good order if and only if it begins a child of a disposed parent, or finishes over a live cursor of a write transaction |
| `LifetimeProtocol.BeginByRules` | LMDBNet/LMDBTransaction.cs:44-45 | a child is begun by the native rules exactly of an active parent or, in an open environment, of a disposed one, whose null handle makes it a transaction of its own |
| `LifetimeProtocol.BeginExact` | LMDBNet/LMDBTransaction.cs:28-47 | a begin ends in good order, live owners included, exactly if the parent, if any, is active and not disposed |
| `LifetimeProtocol.OpenCursorExact` | Include/lmdb.h:985-989 | a cursor may be opened exactly on an active transaction that is not disposed and has no unfinished child |
| `LifetimeProtocol.RestartExact` | LMDBNet/LMDBTransaction.cs:230-252 | a read-only transaction may be reset, and a reset one renewed, exactly while it is neither disposed nor finished and has no unfinished child |
| `LifetimeProtocol.RunIsGood` | LMDBNet/LMDBTransaction.cs:28-333 | every run that follows the protocol stays in good order |
| `LifetimeProtocol.HandlesFinishedOnce` | LMDBNet/LMDBTransaction.cs:259-333 | over every such run each native handle is finished at most once, and exactly once when the environment is disposed |
| `LifetimeProtocol.EnvClosedIffOpened` | LMDBNet/LMDBEnvironment.cs:244-263 | over every such run the environment's own handle is closed once if it was opened and the environment is disposed, and not otherwise |
| `LifetimeProtocol.CommittedChildIsAbortedAgain` | LMDBNet/LMDBTransaction.cs:54-65 | a run that finishes one handle twice: a child is committed, and then its parent |
| `LifetimeProtocol.CursorClosedAfterCommit` | LMDBNet/LMDBCursor.cs:350-364 | a run that closes a freed cursor: a write transaction with a cursor is committed, and then the cursor is disposed |
| `LifetimeProtocol.ChildOfDisposedParent` | LMDBNet/LMDBTransaction.cs:44-45 | a run after which a child is begun of a disposed parent: no rule is broken, and good order is lost |
| `Registry.MyServer.CheckNode` | MyServer/MyServer.cpp:184-192 | the first lock section of a registration: refused if the name or the address is taken, else under way, as `Check` |
| `Registry.MyServer.InsertNode` | MyServer/MyServer.cpp:190-199 | the second one: the inactive node is appended without another look, as `Insert` |
| `Registry.MyServer.RequestVerbRegisterNode` | MyServer/MyServer.cpp:176-203 | with nothing between the sections, appends the node unless its name or address is taken |
| `Registry.MyServer.RequestVerbGetNode` | MyServer/MyServer.cpp:212-264 | the scan for the first node that serves the database or is inactive, its claim and the answer, as `GetNode`; `RegistrySteps.GetNodeExactly` says what that is |
| `Registry.MyServer.RequestVerbReleaseNode` | MyServer/MyServer.cpp:268-292 | the first node that serves the database is freed, as `ReleaseNode` |
| `Registry.MyServer.PingRound` | MyServer/MyServer.cpp:59-117 | one round erases or deactivates at most one node, as `Ping` |
| `RegistrySteps.CheckExactly` | MyServer/MyServer.cpp:370-400 | a registration is refused if and only if some node has its name, or its server and its port; otherwise it is under way, and the list stays as it was |
| `RegistrySteps.InsertExactly` | MyServer/MyServer.cpp:190-199 | the registration under way becomes the last node, inactive and bound to nothing, without another look at the list |
| `RegistrySteps.GetNodeExactly` | MyServer/MyServer.cpp:212-264 | "no node" is answered if and only if every node is active and bound to another name, and then nothing changes; otherwise the answer is the first node bound to the name or inactive, which is left bound to the name, activated if it had to be claimed, and no other node is touched |
| `RegistrySteps.ReleaseNodeExactly` | MyServer/MyServer.cpp:268-292 | the first node bound to the name is answered and left inactive and bound to nothing; without one there is no answer and no change |
| `RegistrySteps.PingExactly` | MyServer/MyServer.cpp:59-117 | a node that cannot be reached leaves the list, one that answers badly is deactivated and stays bound; the round ends there, and all other nodes stay as they were |
| `RegistrySteps.GetTwiceIsOnce` | MyServer/MyServer.cpp:222-257 | asking twice for a database is asking once, with the same node as the answer |
| `RegistryLaws.DistinctExactly` | MyServer/MyServer.cpp:184-200 | a step keeps names and (server, port) pairs pairwise distinct if and only if it is not the insertion of a node that clashes at that moment |
| `RegistryLaws.ApartExactly` | MyServer/MyServer.cpp:184-200 | the identities in the list and under way stay apart if and only if the step is not a check that passes while a clashing registration is under way |
| `RegistryLaws.RunKeepsDistinct` | MyServer/MyServer.cpp:370-400 | in every run without such a race, interleaved registrations, releases and pings included, names and addresses are pairwise distinct |
| `RegistryLaws.RaceFromEmpty` | MyServer/MyServer.cpp:184-200 | the run from the empty list in which two registrations check before either inserts keeps them distinct if and only if they do not clash |
| `RegistryLaws.ActiveServesExactly` | MyServer/MyServer.cpp:226-239 | a step keeps active nodes bound to a non-empty database if and only if it is not the one exception |
| `RegistryLaws.RunKeepsActiveServing` | MyServer/MyServer.cpp:98-111 | in every run whose `get-node` requests carry a name, releases and pings included, active nodes serve a non-empty database |
| `RegistryLaws.ActiveNodeForNothing` | MyServer/MyServer.cpp:226-239 | the exception is reached from the empty list |
| `RegistryLaws.UniqueBindingExactly` | MyServer/MyServer.cpp:226-239 | a step keeps databases bound to one node if and only if `get-node` does not meet a hole first |
| `RegistryLaws.SecondNodeForOneDatabase` | MyServer/MyServer.cpp:222-292 | a run from the empty list that binds one database to two nodes |
| `RegistryLaws.RunKeepsBlock` | MyServer/MyServer.cpp:82-87 | in every run of registrations, `get-node` with a name and erasing pings, the list is a block of active nodes with distinct databases followed by unused nodes |
| `RegistryLaws.BindingIsStable` | MyServer/MyServer.cpp:222-242 | in such a run `get-node` keeps answering with the node that serves the database until that is erased |
| `RegistryLaws.ReleaseThenGet` | MyServer/MyServer.cpp:278-292 | `release-node` then `get-node` restores the list if and only if no node up to the one released is inactive |
| `RegistryLaws.ReleaseThenGetInBlock` | MyServer/MyServer.cpp:278-292 | in particular in every block-shaped list |
| `Base64.Base64Encode` | MySharedStuff/Base64Helper.cpp:23-64 | the loop over three-byte groups and the padded rest computes `Encode` |
| `Base64.Base64Decode` | MySharedStuff/Base64Helper.cpp:66-105 | the loop over four-character groups and the rest computes `Decode` |
| `Base64.SplitGroup` | MySharedStuff/Base64Helper.cpp:33-36 | the masks and shifts from three bytes to four groups |
| `Base64.JoinGroup` | MySharedStuff/Base64Helper.cpp:80-82 | the masks and shifts from four groups to three bytes |
| `Base64.DecodeRest` | MySharedStuff/Base64Helper.cpp:90-102 | of the last group only bytes that depend on the characters read are appended, whatever the slots filled up hold |
| `Base64.FoundExactly` | MySharedStuff/Base64Helper.cpp:18-21 | `is_base64` holds exactly of the characters found in the alphabet |
| `Base64Laws.EncodedLength` | MySharedStuff/Base64Helper.cpp:43-60 | the encoding has length 4 ceil(n / 3) |
| `Base64Laws.EncodeKeepsBits` | MySharedStuff/Base64Helper.cpp:33-36 | the letters spell the bits of the bytes in order, filled up with zero bits: section 4 of RFC 4648 |
| `Base64Laws.SextetsRoundTrip` | MySharedStuff/Base64Helper.cpp:80-102 | joining the groups split from any bytes gives the bytes |
| `Base64Laws.DecodeEncode` | MySharedStuff/Base64Helper.cpp:23-105 | decoding undoes encoding, for every byte sequence |
| `Base64Laws.EncodeDecodeExactly` | MySharedStuff/Base64Helper.cpp:23-105 | encoding restores a string from its decoding if and only if it is canonical in the sense of section 3.5 of RFC 4648 |
| `Base64Laws.DecodeReadsPrefix` | MySharedStuff/Base64Helper.cpp:74-75 | decoding depends only on the longest prefix of alphabet characters |
| `Base64Laws.DecodeKeepsBits` | MySharedStuff/Base64Helper.cpp:74-102 | of every string, canonical or not, decoding gives floor(6 p / 8) bytes for its longest prefix of p alphabet characters, and bit i of them is bit i of the characters, six bits each |
| `ContainerBuffer.ContainerBuffer.Create` | Include/cpprest/containerstream.h:369-392 | starts at the beginning for reading and at the end for writing; a mode with both throws |
| `ContainerBuffer.ContainerBuffer.Read` | Include/cpprest/containerstream.h:420-446 | copies the next characters, at most `count`, into the caller's block and nothing else |
| `ContainerBuffer.ContainerBuffer.Write` | Include/cpprest/containerstream.h:451-467 | stores the characters at the position, growing the container |
| `ContainerBuffer.ContainerBuffer.SeekPos` | Include/cpprest/containerstream.h:288-331 | a read head stays within the data, a write head grows it, anything else fails and changes nothing; position, answer and contents are pinned by `StreamSteps.SeekPosExactly` |
| `ContainerBuffer.ContainerBuffer.SeekOff` | Include/cpprest/containerstream.h:341-361 | relative to the beginning, the position or the end |
| `ContainerBuffer.ContainerBuffer.UngetC` | Include/cpprest/containerstream.h:257-263 | one step back, then `getc` |
| `ContainerBuffer.ContainerBuffer.GetN` | Include/cpprest/astreambuf.h:587-597 | a read that sets the end-of-file flag exactly when it was asked for something and found nothing |
| `ContainerBuffer.ContainerBuffer.Alloc` | Include/cpprest/astreambuf.h:649-660 | throws while a block is out, answers null without write access, else grows the container by the grant |
| `ContainerBuffer.ContainerBuffer.Commit` | Include/cpprest/astreambuf.h:667-674 | throws unless a block is out, else moves the position |
| `StreamSteps.GetNExactly` | Include/cpprest/astreambuf.h:587-613 | character by character: `getn` answers with min(count, remaining) of them and moves behind them, `scopy` answers with the same and changes nothing; without read access neither does anything |
| `StreamSteps.CharReadsExactly` | Include/cpprest/containerstream.h:226-263 | which character `getc`, `bumpc`, `nextc` and `ungetc` answer with, where they leave the position, and when they set and clear the flag |
| `StreamSteps.AcquireExactly` | Include/cpprest/containerstream.h:182-214 | `acquire` answers with all that is left and moves nothing, true also at the end; `release` moves by its count unless the pointer is null |
| `StreamSteps.PutNExactly` | Include/cpprest/astreambuf.h:469-479 | `putn` overwrites at the position and moves behind what it wrote, growing the container no more than needed and keeping all other bytes; of nothing, or without write access, it answers 0 and changes nothing |
| `StreamSteps.PutCExactly` | Include/cpprest/astreambuf.h:450-459 | the same of one character |
| `StreamSteps.SeekPosExactly` | Include/cpprest/containerstream.h:288-331 | a seek succeeds if and only if the place is in the data or at its end and the read head asks, or is not negative and the write head does; it then moves there, answers the place, and keeps the bytes in front of exactly the zeros needed; a failing seek answers none and changes nothing |
| `StreamSteps.SeekOffExactly` | Include/cpprest/containerstream.h:341-361 | the same from the beginning, from the position and from the end; any other way fails |
| `StreamSteps.SeekThenWrite` | Include/cpprest/containerstream.h:318-325 | seeking with the write head and writing overwrites at the place sought, with zeros in between if that was past the end |
| `StreamSteps.SeekThenRead` | Include/cpprest/containerstream.h:307-316 | seeking with the read head and reading delivers the characters at the place sought |
| `StreamSteps.AllocExactly` | Include/cpprest/astreambuf.h:649-660 | the place granted is the position, the container grows by zeros to hold the grant; a second grant throws, and without write access it is null |
| `StreamSteps.CommitExactly` | Include/cpprest/astreambuf.h:667-674 | with a block out the position moves by the count and the block is no longer out; without one it throws |
| `StreamSteps.CloseExactly` | Include/cpprest/astreambuf.h:402-422 | closing takes away the heads named and nothing else |
| `StreamLaws.RunStaysInBounds` | Include/cpprest/containerstream.h:484-488 | in every run of all operations the position stays within the data, the data never shrinks and no buffer reads and writes |
| `StreamLaws.ReadingRunCanBeUndone` | Include/cpprest/containerstream.h:226-331 | no run changes the contents of a buffer open for reading, and seeking back restores it whole |
| `StreamLaws.WritingRunDeliversNothing` | Include/cpprest/astreambuf.h:501-613 | no run hands out a character of a buffer that is not open for reading, by `getn`, `scopy`, `bumpc`, `getc`, `nextc`, `ungetc` or `acquire` |
| `StreamLaws.AnyCutReadsTheSame` | Include/cpprest/containerstream.h:420-446 | any cutting of a read into `getn` and `bumpc` delivers the same characters and ends at the same position |
| `StreamLaws.EofMeansExhausted` | Include/cpprest/astreambuf.h:587-597 | the flag after a last read says exactly that the reads before it had exhausted the stream |
| `StreamLaws.AnyCutWritesTheSame` | Include/cpprest/containerstream.h:451-467 | any cutting of a write into `putn` and `putc` leaves the same stream |
| `StreamLaws.WriteThenRead` | Include/cpprest/containerstream.h:420-467 | what any cuts write into an empty container, any cuts that ask for enough read back |
| `StreamLaws.GrantIsPutN` | Include/cpprest/containerstream.h:148-167 | alloc, fill and commit of k characters leave the prefix and position of writing them, and the same container if and only if the whole grant was used or lay within the old size |
| `StreamLaws.GrantRunIsPutN` | Include/cpprest/astreambuf.h:649-674 | any number of such rounds writes what one `putn` of the parts writes |
| `StreamLaws.AcquireReleaseIsGetN` | Include/cpprest/containerstream.h:182-214 | acquiring the block and releasing part of it is reading that much |
| `StreamLaws.UngetUndoesBump` | Include/cpprest/containerstream.h:257-263 | `ungetc` restores the stream before a `bumpc` if and only if there was a character to read, or the position was 0 |
| `InteropStream.XsGetN` | Include/cpprest/interopstream.h:271-291 | over any source that answers with one to `count` characters until its end, the loop delivers exactly the next min(count, remaining) |
| `InteropStream.XsGetNOfContainer` | Include/cpprest/interopstream.h:271-291 | over the container buffer one `xsgetn` is one direct read; only the end-of-file flag differs, and how is stated |
| `AsyncQueue.AsyncOperationQueue.EnqueueOperation` | Include/cpprest/filestream.h:52-73 | as `Next`: runs the operation at once when the queue is idle, else chains it; tasks and history are pinned by `AsyncQueue.EnqueueOnIdle` and `AsyncQueue.EnqueueOnBusy` |
| `AsyncQueue.StepKeepsInvariant` | Include/cpprest/filestream.h:40-73 | every enqueue, start and completion keeps the chain and its history in order |
| `AsyncQueue.RunsInOrder` | Include/cpprest/filestream.h:40-73 | in every interleaving, whatever throws, finishes at once, later or with an error, the history is start 0, end 0, start 1, end 1, and so on |
| `AsyncQueue.WaitWaitsForAll` | Include/cpprest/filestream.h:75-78 | when the last continuation is finished everything is, and all operations have ended |
| `AsyncQueue.NeverStuck` | Include/cpprest/filestream.h:62-71 | unless all is finished, something can start or complete, also after a failure |
| `AsyncQueue.Drains` | Include/cpprest/filestream.h:40-73 | once nothing more is enqueued, every run of the steps left ends idle: no operation is lost |
| `AsyncQueue.EnqueueOnIdle` | Include/cpprest/filestream.h:55-72 | with the last task finished the operation is called inside the call: one that throws or returns finished has ended and leaves no task, one that goes on leaves a running task and the continuation that waits for it, now the last |
| `AsyncQueue.EnqueueOnBusy` | Include/cpprest/filestream.h:60-72 | otherwise it is not called, and waits for what was last in the chain |
| `AsyncQueue.RunExactly` | Include/cpprest/filestream.h:62-71 | running a waiting task starts its operation, or finishes it if it is a continuation, and changes no other task |
| `AsyncQueue.CompleteExactly` | Include/cpprest/filestream.h:62-71 | completing a running operation ends it and records whether it failed, and changes no other task |
| `AsyncQueue.StartedAtOnceExactly` | Include/cpprest/filestream.h:55-64 | in every run, the call that enqueues an operation starts it if and only if everything enqueued before is finished at that moment |
| `HandleOwners.Owner.Moved` | lmdbxx/lmdb++.h:1128-1130 | the new wrapper takes the handle, the old one is left with null |
| `HandleOwners.Owner.Assign` | lmdbxx/lmdb++.h:1135-1140 | the two wrappers swap, also when they are one object |
| `HandleOwners.Program.CommitOwner` | lmdbxx/lmdb++.h:1341-1344 | commits and lets go of the handle, throws on null, as `Next`; `OwnerLaws.CommitExactly` says which native call that is |
| `HandleOwners.Program.DestroyOwner` | lmdbxx/lmdb++.h:1307-1312 | closes or aborts what is still owned |
| `OwnerLaws.StepAccounts` | lmdbxx/lmdb++.h:1122-1184 | no operation changes how often a handle is owned or finished, but for the one it makes |
| `OwnerLaws.RunConserves` | lmdbxx/lmdb++.h:1284-1354 | in every run each handle made is accounted for exactly once |
| `OwnerLaws.EveryHandleFinishedOnce` | lmdbxx/lmdb++.h:1746-1798 | no handle is owned twice or finished twice, each is finished by the call of its kind, and exactly once when all wrappers are destroyed |
| `OwnerLaws.AssignedOverIsFinishedLater` | lmdbxx/lmdb++.h:1135-1140 | in every run after a move assignment, the handle assigned over is not finished while the source is left alone, and is finished when that is destroyed |
| `OwnerLaws.CommitExactly` | lmdbxx/lmdb++.h:1341-1344 | committing what is owned makes exactly the native commit of that handle, leaves null and changes no other wrapper; committing null does nothing |
| `OwnerLaws.AbortExactly` | lmdbxx/lmdb++.h:1351-1354 | aborting makes exactly the native abort, of the null handle too, and leaves null |
| `OwnerLaws.CloseExactly` | lmdbxx/lmdb++.h:1179-1184 | closing makes the native close of what is owned, once, and of null nothing |
| `OwnerLaws.DestroyExactly` | lmdbxx/lmdb++.h:1307-1312 | a destroyed transaction that is still owned is aborted, an environment or cursor closed, one without a handle makes no call |
| `OwnerLaws.CreateExactly` | lmdbxx/lmdb++.h:1098-1113 | one handle is made and owned; refused flags leave no wrapper, and the handle closed again |
| `OwnerLaws.MovesExactly` | lmdbxx/lmdb++.h:1290-1302 | a move takes the handle and leaves null, an assignment exchanges the two handles, and no native call is made |
| `OwnerLaws.EndedExactly` | lmdbxx/lmdb++.h:1284-1354 | over every run, a handle was committed if and only if some step was a commit by the wrapper that owned it at that moment, likewise aborted and closed, and it was ended in one of these ways at most |
| `QueryParameters.ExtractParameters` | LMDBServiceNet/WebServer.cs:173-216 | the loop over the parts computes `Extract`, exceptions included |
| `QueryParameters.ExtractExactly` | LMDBServiceNet/WebServer.cs:181-211 | for every request: the empty one has no parameters; any other is refused as out of range if and only if it begins with '&', and for a repeated name, if it does not, if and only if two parts between the '&' with exactly one '=' have the same name before it; otherwise the parameters are exactly the names and values around the only '=' of such parts |
| `QueryParameters.PairExactly` | LMDBServiceNet/WebServer.cs:199-208 | a part counts, with this name and this value, if and only if it is the name, an '=' and the value and has no other '=' |
| `QueryParameters.ExtractSpelled` | LMDBServiceNet/WebServer.cs:173-216 | "?k=v&..." of plain pairs gives back exactly those pairs if and only if their names are distinct |
| `QueryParameters.SplitJoin` | LMDBServiceNet/WebServer.cs:188 | splitting undoes joining of parts without the separator |

## Left out

- Lifetimes.Session: one heap of numbered objects instead of a C# object each, so that an event is a list of numbers; a reference held to an object in two ways is not modelled beyond that.
- Native begin, commit and the other native calls of LMDBNet succeed, and a native handle is never reused. Of the library's rules those at the head of `NativeLedger.dfy` are modelled; one transaction per thread, and reading and writing through transactions and cursors, are not.
- LifetimeProtocol.BeginExact: a second child may be begun beside an unfinished one, as LMDBNet/LMDBEnvironment.cs:156 says; Include/lmdb.h:987-989 lets a parent with an active child only commit or abort.
- LifetimeTheorems.DisposeDisposesSubtree: that a cursor is closed while its transaction has an unfinished child is taken to be allowed at any time before the transaction ends (Include/lmdb.h:1413-1414).
- `LMDBDatabase` (which subscribes to the environment as well), finalizers, garbage-collection pinning, and the renewal of a cursor on another transaction.
- Registry.MyServer.PingRound: the answers of the nodes are an input; exceptions other than a failed request, the pause between rounds, and the HTTP messages and JSON of all requests are left out.
- Guard.Drains: bounds the steps; that the operating system schedules an enabled step at all, and that fewer than `MAXLONG` threads wait, is assumed.
- Guard.CSWMRGuard.DoneEnter: a `Done` by a thread that is not inside is a client error and is not modelled.
- Base64.Base64Decode: `isalnum` is taken in the "C" locale, and lengths are not cut to 32 bits.
- ContainerBuffer.ContainerBuffer.Alloc: for an allocation of nothing at the end of the container the code indexes one past the end; the model takes the pointer to be there, as it is in a string, where for a vector the language leaves it undefined.
- ContainerBuffer.ContainerBuffer.Fill: the pointer that `alloc` returned is an index, so that it stays valid when the container grows, which in C++ it may not.
- The synchronous `sbumpc` and `sgetc`, which do to this buffer what `bumpc` and `getc` do.
- Exceptions stored in a stream buffer, the overflow of sizes and positions, and the rest of `filestream.h` and `interopstream.h`.
- AsyncQueue.AsyncOperationQueue.EnqueueOperation: one caller at a time, as its comment demands; an operation that throws when it is run as a continuation counts as one that failed.
- HandleOwners.Program.Construct: a failed native create or begin, which makes no handle, and HandleOwners.Program.CommitOwner: a commit that fails on a valid handle, are excluded.
- QueryParameters.ExtractParameters: the request is what `Path.GetFileName` left of the URL; percent-decoding is not done by the code either.
- The LMDB engine itself (only its headers are in the repository), `CLMDBWrapper`, the servers' start-up, the HTTP, JSON and logging plumbing: no algorithm of their own.
