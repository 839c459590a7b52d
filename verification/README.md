# The stateful core of neptune.library

Neptune is a USB stack for AmigaOS. This project models the parts of its core,
`neptune.library/neptune.library.c`, that keep state under an invariant, and proves what those
parts promise. Functions over values say what each operation does, classes and methods with the
source's loops are proved to do that, and the main results are lemmas about the functions over
every input, every run or every interleaving.

- **The reader/writer lock and lock lending** (`Locks`, `LockRuns`, `Lending`, `LockSemaphores`,
  `BorrowLocks`). Each stretch of code that cannot be interrupted is one step, run by any of
  unboundedly many tasks on any number of semaphores. Over all runs: mutual exclusion, exact hold
  counts of both kinds of lock, a lock granted exactly when nobody stands in its way, no lost
  wake-up. Lending a task's locks to another and taking them back gives the task the same
  exclusive and shared locks again; it keeps exclusion, and keeps wake-ups, exactly under stated
  conditions.
- **The configuration store** (`Iff`, `IffRoundTrip`, `IffContexts`). The tree of EA IFF 85 FORMs
  with its length pass, printer and recursive parser, on values and in place: a byte buffer that
  grows and is compacted, and linked sub-forms. Print and parse are inverse, a second print of
  anything well-formed equals the first, and the parser accepts memory exactly when something
  well-formed starts there.
- **The keyed store and migration** (`ConfigStore`, `ConfigStoreLaws`, `ConfigRoots`,
  `Migration`, `MigrationLoops`). Per-device and per-interface data and forced bindings are two
  separate maps over any sequence of writes, and what a write leaves behind is told by the bytes
  written. Rewriting Poseidon's names is idempotent and touches nothing else. The loops find forms
  in the linked tree and change them through their own pointers.
- **Alternate settings** (`AltSetting`, `AltInterfaces`). The rotation of the interface list and
  the rollback against the controller, with the exact cases in which the two end up disagreeing.
- **Class bindings** (`Bindings`, `Scans`, `UsbStacks`). Scanning, claiming, releasing, class
  loading and removal with arbitrary answers of classes and devices: what a scan binds, and to
  whom, is told by the answers; over any sequence of requests use counts are exact, device and
  interface bindings exclude each other, and the restart loops end.
- **Pipe streams** (`StreamWrite`, `OutStreams`, `InStreams`). Buffered writing is a FIFO of whole
  packets within its buffer, sent in exactly told amounts; buffered reading hands out the bytes
  in order and returns exactly when it has a reason to.
- **Completion-side protocols** (`StallRecovery`, `BusyCount`, `LinkPower`) and **the power
  budget** (`Power`, `PowerPass`).

`dafny verify dfyconfig.toml` checks everything.

## What the model takes from the source, and where it differs from its comments

- An exclusive lock handed to a task that waits for a *shared* lock breaks exclusion: the waiter's
  record is marked exclusive, but it re-checks only the owner, so a third task may take a shared
  lock first (lines 745-773 and 543-557). `Lending.LendSafeIff` says that every run keeps exclusion
  exactly when no lock is handed over in that way; `Lending.HandOverOvertaken` gives the run that
  breaks it.
- Handing a lock to a queued borrower signals the borrower alone (lines 745-773 and 792-812), where
  an unlock signals every waiter. If the lender leaves a sole reader that waits to become the
  owner, nobody tells it: `Lending.HandOverLosesWakeUp` is such a run. `Lending.LendAwakeIff` says
  exactly when nobody is passed over, and `Lending.LendingKeepsAwake` carries that through the call.
- A failed CONFIGURE_ENDPOINTS op in `pContextSetInterface` leaves the endpoints of the current
  alternate configured, but their submit tokens are already cleared (lines 3044 and 3057).
  `AltSetting.TokensAfter` says exactly when tokens survive.
- The comment above `pLinkPowerDisarm` says that the next sweep retries a controller teardown that
  failed. The sweep tests only the policy bit, which the disarm has cleared (lines 3399-3402, 3434
  and 3500). `LinkPower.RefusedStays` says that no sweep does anything about the leftover bit while
  the policy stays withdrawn, and `LinkPower.RetriedIff` that the teardown is attempted again
  exactly when the policy was put into force on the device again and then withdrawn.
- `psdSetUsbDevCfg` with data it refuses still leaves forms behind (lines 8963-8992). For a known
  device it adds another form of that device, with the key's item in it, which nothing ever looks
  at (`ConfigStoreLaws.RefusedLeaves`): every refused write makes the tree grow by one form
  (`ConfigStoreLaws.RefusalsPile`). And a key that had no data then shows what was read before the
  refusal, often an empty form; data behind the right header that breaks off replaces what was
  there (`ConfigStoreLaws.GetAfterSet`).
- The parser takes the size of a nested FORM for that of its contents also when it is one less
  than a writer would put there (line 9402): `IffRoundTrip.ReadAccepts` allows for both.
- `psdStopRTIso` gives a hold on the device back whenever its command succeeds, started or not, so
  the busy count can fall below zero (lines 7211-7223): `BusyCount.StrayStop`.
- The bound on the write buffer needs the buffer to hold one packet, which `psdSetAttrs` enforces
  (line 4052). `StreamWrite.BoundIff` states the exact condition.

## Model

| member | source | states |
|---|---|---|
| LockRuns.ExclusionAndCounting | neptune.library/neptune.library.c:460-644 | after any run of lock and unlock calls of any tasks: there is no owner exactly when the exclusive count is 0, all read records under an owner are the owner's, the shared count is the number of records, records have distinct tasks and counts of at least 1, and each task holds exactly its locks minus its unlocks, in all and of each kind |
| LockRuns.GrantedIffClear | neptune.library/neptune.library.c:460-565 | after any run a lock step, first or woken, is granted exactly when no other task owns the semaphore and, for an exclusive lock, none reads it; otherwise the task waits for a lock of that kind |
| LockRuns.ReadTogether | neptune.library/neptune.library.c:502-565 | on a semaphore without an owner any number of free tasks get shared locks one after the other, none of them waits, there is still no owner, and each holds as many more as it asked for |
| LockRuns.SharedGrant | neptune.library/neptune.library.c:502-565 | with memory a shared lock is granted at once exactly when nobody else owns the semaphore; without an owner the task is then a reader once more |
| LockRuns.UnlockSignals | neptune.library/neptune.library.c:577-643 | whoever gives its last lock of a kind back signals every waiter, any other unlock signals nobody |
| LockRuns.UnlockRefusedIffNotHeld | neptune.library/neptune.library.c:569-644 | after any run an unlock is refused exactly when its caller's locks and unlocks balance, and a refused unlock changes nothing |
| LockRuns.NoLostWakeUp | neptune.library/neptune.library.c:461-644 | after any run every queued task whose condition holds has its signal pending; once nobody else holds the semaphore its condition does hold and its next segment is granted |
| LockRuns.SoleHolderGranted | neptune.library/neptune.library.c:471-485 | a queued task that alone holds shared locks, or waits on a free semaphore, may proceed, the sole reader waiting to promote included |
| LockRuns.SegmentFacts | neptune.library/neptune.library.c:460-644 | every uninterruptible segment keeps the semaphore sound, queues its task exactly when it blocks and for the kind of lock it asks for, and changes only that task's holds, of that kind only, by the lock or unlock it grants |
| LockRuns.NextAwake | neptune.library/neptune.library.c:632-643 | no segment of anybody takes a pending wake-up from a task that could proceed |
| LockSemaphores.LockSem.LockExcl | neptune.library/neptune.library.c:461-498 | the loop of pLockSemExcl up to its grant or its wait, on the fields of the semaphore, is the value-level segment |
| LockSemaphores.LockSem.LockShared | neptune.library/neptune.library.c:502-565 | the same for pLockSemShared, its fallback to an exclusive lock without memory included |
| LockSemaphores.LockSem.Woken | neptune.library/neptune.library.c:487-563 | what a waiting task does when its signal arrives |
| LockSemaphores.LockSem.UnlockSem | neptune.library/neptune.library.c:569-644 | pUnlockSem on the fields of the semaphore, with the signals it sends |
| LockSemaphores.LockSem.Lend | neptune.library/neptune.library.c:739-853 | one semaphore of the lending phase: the owner's lock, then the reader's, with every move, merge and hand-over to a queued task |
| LockSemaphores.LockSem.TakeLoanBack | neptune.library/neptune.library.c:861-908 | one entry of the list of borrows taken back, split or put on the list of reclaims |
| BorrowLocks.SemaphoreList.LendLocks | neptune.library/neptune.library.c:709-857 | the walk over all semaphores: locks are counted first, none means nothing is lent, and otherwise every semaphore is lent in turn |
| BorrowLocks.SemaphoreList.ReclaimLocks | neptune.library/neptune.library.c:859-908 | the walk over the borrows after the wait |
| Lending.LendPhase | neptune.library/neptune.library.c:737-855 | lending moves every hold of the lender, exclusive and shared each as such, to the borrower or to the lists, keeps every semaphore sound and leaves third tasks alone |
| Lending.ReclaimPhase | neptune.library/neptune.library.c:859-908 | whatever runs in between, what was lent can be taken back; the borrower keeps exactly its own locks; of each kind the lender has at once what it lent, unless the borrower has more of that kind or still owns the semaphore, and then all of it is put on the list to be locked again |
| Lending.ListsCoverHolds | neptune.library/neptune.library.c:741-852 | of each kind of lock the two lists together name exactly the lender's holds on every semaphore: all to be reclaimed where the borrower waits, all borrowed elsewhere |
| Lending.RelockCallsOwed | neptune.library/neptune.library.c:910-926 | the last loop makes one exclusive call per exclusive lock on its list and one shared call per shared lock |
| Lending.RunLoansOut | neptune.library/neptune.library.c:857 | while the locks are out, any run of others in which the borrower never releases more than it acquired keeps every loan recoverable |
| Lending.LendingConservesLocks | neptune.library/neptune.library.c:692-929 | lending conserves locks: through every move, merge, split and requeue case the lender ends with the hold counts it had on entry, on every semaphore, and every phase keeps the lock invariant |
| Lending.LendingRestoresLocks | neptune.library/neptune.library.c:692-929 | with memory for its read locks the lender ends with exactly the exclusive and the shared locks it had on entry, on every semaphore, and owns what it owned; the last loop asks for all shared locks before any exclusive one |
| Lending.OwnerOwnsAgain | neptune.library/neptune.library.c:692-929 | also without memory the lender ends as the owner of every semaphore it owned |
| Lending.LendingKeepsAwake | neptune.library/neptune.library.c:737-908 | under the condition of LendAwakeIff no wake-up is lost in the call: at the wait, over any run of the others while the lender waits, and when the locks are taken back; the borrower may be queued |
| Lending.LendAwakeIff | neptune.library/neptune.library.c:737-855 | the lend phase loses no wake-up exactly when, where the lender's lock is handed to the queued borrower, every other record that is let through already has its signal: any record when the semaphore becomes free, and when one reader is left, that reader waiting to become the owner |
| Lending.HandOverLosesWakeUp | neptune.library/neptune.library.c:792-812 | an input where that condition fails: after the hand-over and the borrower's wake-up the sole reader may become the owner, and no signal is pending for it |
| Lending.CrowdedReached | neptune.library/neptune.library.c:460-565 | that input is reached from a free semaphore by four lock calls |
| Lending.LendSafeIff | neptune.library/neptune.library.c:741-785 | over every run that can follow, lending keeps exclusion on every semaphore exactly when it hands no exclusive lock to a task queued for a shared one; the lock invariant survives the lend phase exactly then |
| Lending.HandOverOvertaken | neptune.library/neptune.library.c:745-773 | in any safe state with such a hand-over, any third task that takes a shared lock before the borrower wakes up ends up reading beside an exclusive owner |
| Lending.HandOverBreaksExclusion | neptune.library/neptune.library.c:745-773 | the smallest case: a safe state, the hand-over, a third task taking a shared lock, the waiter waking up: an owner beside another task's read lock |
| Lending.CallsAreKept | neptune.library/neptune.library.c:910-926 | the locks a task has plus those it is blocked on grow by exactly the lock calls it makes, exclusive and shared |
| Lending.KindsAreKept | neptune.library/neptune.library.c:910-926 | a task that asks for no shared lock on a semaphore it owns or waits to own gets exactly one lock of the kind it asked for per call |
| Iff.LongOfBytes | include/aros_compat.h:60-61 | a long is written as four bytes, the most significant first, and reads back as written |
| IffRoundTrip.ParseItem | neptune.library/neptune.library.c:9391-9444 | pAddCfgChunk on the bytes of any well-formed chunk or nested FORM does what they stand for, and the caller's loop steps over exactly those bytes |
| IffRoundTrip.PrintIsItem | neptune.library/neptune.library.c:9326-9340 | pGetFormLength is the number of bytes the printer writes, and they are a well-formed FORM |
| IffRoundTrip.PrintLayout | neptune.library/neptune.library.c:9447-9464 | the print is the long FORM, the number of bytes that follow it, the type, the chunks as they stand and the sub-forms in order |
| IffRoundTrip.RoundTrip | neptune.library/neptune.library.c:9391-9464 | printing any tree that fits 2 GB and parsing the bytes, whatever follows them, appends an identical tree |
| IffRoundTrip.ReadBack | neptune.library/neptune.library.c:8140-8187 | psdReadCfg on a printed form replaces a form of its type by an identical one and refuses any other type without a change |
| IffRoundTrip.PrintParsePrint | neptune.library/neptune.library.c:9391-9464 | any well-formed bytes, with chunks and FORMs in any order and repeated ids, parse to a tree that prints in no more bytes, and its print parses to the same tree |
| IffRoundTrip.EntryAccepts | neptune.library/neptune.library.c:9391-9444 | on any memory below 2 GB pAddCfgChunk succeeds exactly when a well-formed chunk or FORM starts there, and then does what that stands for |
| IffRoundTrip.ReadAccepts | neptune.library/neptune.library.c:8152-8187 | psdReadCfg on a given form succeeds exactly when a well-formed FORM of its type starts there |
| IffRoundTrip.ReadSoFar | neptune.library/neptune.library.c:9397-9416 | when the loop over a FORM stops it has kept every item up to the first place where none starts, and of a FORM that fails inside a form of that type |
| IffContexts.MoveDown | neptune.library/neptune.library.c:9378-9380 | the forward byte copy to a lower address moves the bytes and leaves those before it |
| IffContexts.Context.constructor | neptune.library/neptune.library.c:9287-9308 | a fresh form of an id with an empty buffer |
| IffContexts.Context.FindCfgChunk | neptune.library/neptune.library.c:9342-9362 | the offset of the first chunk with the id, or the end of the buffer |
| IffContexts.Context.RemCfgChunk | neptune.library/neptune.library.c:9364-9389 | removal in place is removal from the list of chunks, and tells whether there was one |
| IffContexts.Context.AppendBytes | neptune.library/neptune.library.c:9423-9440 | appending to the buffer, which grows to twice the need only when the need exceeds it |
| IffContexts.Context.AddDataChunk | neptune.library/neptune.library.c:9421-9442 | a data chunk replaces an earlier one of its id and goes to the end |
| IffContexts.Context.AddCfgChunk | neptune.library/neptune.library.c:9391-9444 | the recursive parser, allocating and linking sub-forms in place, is the value-level parser on any bytes, and keeps the tree of forms separate and well-formed |
| IffContexts.Context.ReadCfg | neptune.library/neptune.library.c:8152-8187 | psdReadCfg in place on a given form: its sub-forms and chunks go and the contents of the FORM are parsed in, or another type is refused without a change |
| IffContexts.Context.GetFormLength | neptune.library/neptune.library.c:9326-9340 | the length pass over the tree in memory |
| IffContexts.Context.WriteForm | neptune.library/neptune.library.c:9447-9464 | the printer writes exactly the printed bytes at the given offset and nothing before it |
| ConfigStore.AddIsMapUpdate | neptune.library/neptune.library.c:9391-9444 | on chunks with distinct ids adding is a map update: the new data under its id, every other id as before, ids still distinct; the new chunk is the last |
| ConfigStore.RemoveIsMapRemove | neptune.library/neptune.library.c:9364-9389 | removing is map removal |
| ConfigStore.FindForm | neptune.library/neptune.library.c:8417-8467 | a search over sibling forms finds the first match |
| ConfigStoreLaws.EntryDistinct | neptune.library/neptune.library.c:9391-9444 | parsing any bytes, well-formed or not, leaves chunk ids distinct throughout the tree |
| ConfigStoreLaws.PutItemLaw | neptune.library/neptune.library.c:8893-8949 | below one device a write changes the data of its own owner and interface and nothing else |
| ConfigStoreLaws.SetUsbDevCfgLaw | neptune.library/neptune.library.c:8878-8999 | get after set: whether or not the data is accepted, the matching psdGetUsbDevCfg shows what was written, every other key and every forced binding is as before, a write without data succeeds and leaves an empty form, and the tree grows by one device form unless the device was known and the data is accepted |
| ConfigStoreLaws.GetAfterSet | neptune.library/neptune.library.c:8878-9053 | a write succeeds exactly when a well-formed FORM of the key's type starts the data; what psdGetUsbDevCfg shows then is the tree that FORM stands for, without a trace of what was there; without the right header it shows what it did before or an empty form, and with it as much as could be read |
| ConfigStoreLaws.FirstWrite | neptune.library/neptune.library.c:8963-8992 | the forms a first write for a device adds: a DEVC form with the device, in it a DCFG or ICFG form with owner and interface, in that the data form |
| ConfigStoreLaws.StorePrinted | neptune.library/neptune.library.c:8878-8999 | storing a printed form stores that form; a form of another type is refused and leaves the data that was there, and a key without data then has an empty form |
| ConfigStoreLaws.RefusedLeaves | neptune.library/neptune.library.c:8958-8999 | a refused write for a known device appends a second form of that device with the key's item, and searches still find the first one |
| ConfigStoreLaws.SetForcedBindingLaw | neptune.library/neptune.library.c:9055-9156 | the same for psdSetForcedBinding and psdGetForcedBinding, removal included; device and interface data never change |
| ConfigStoreLaws.ForcedItem | neptune.library/neptune.library.c:9074-9104 | forcing a binding adds a form exactly for an interface that has none, and that form is the one in which the same owner keeps its data for the interface |
| ConfigStoreLaws.ForcedEverywhere | neptune.library/neptune.library.c:9076-9091 | every form of the interface gets the binding or loses it, and no other form is touched |
| ConfigStoreLaws.StoreIsTwoMaps | neptune.library/neptune.library.c:8878-9202 | over any sequence of writes of both kinds, accepted or refused, the store is two separate maps |
| ConfigStoreLaws.RefusalsPile | neptune.library/neptune.library.c:8878-9156 | over any writes of both kinds for known devices the tree grows by one form for every refused data write and by nothing else |
| ConfigRoots.MatchStringChunk | neptune.library/neptune.library.c:9566-9585 | the character loop accepts exactly when the chunk holds the string |
| ConfigRoots.AddStringChunk | neptune.library/neptune.library.c:9547-9563 | the bytes pAddStringChunk builds, parsed into a form in place, are the string chunk |
| ConfigRoots.ConfigRoot.ReadCfg | neptune.library/neptune.library.c:8140-8187 | psdReadCfg with no form given reads the first root, and fails when there is none |
| ConfigRoots.ConfigRoot.SetUsbDevCfg | neptune.library/neptune.library.c:8878-8999 | psdSetUsbDevCfg on the linked forms, each changed through its own pointer: the tree then stands for what the value-level write says, the clearing of the data form included; without a configuration root it fails and changes nothing |
| ConfigRoots.ConfigRoot.GetUsbDevCfg | neptune.library/neptune.library.c:9002-9053 | the pointer psdGetUsbDevCfg returns is into the tree and stands for the data form of the key, or there is none |
| ConfigRoots.ConfigRoot.SetForcedBinding | neptune.library/neptune.library.c:9056-9156 | psdSetForcedBinding on the linked forms, over every form of the interface |
| ConfigRoots.ConfigRoot.GetForcedBinding | neptune.library/neptune.library.c:9159-9203 | the string psdGetForcedBinding points at, in the buffer of a form of the tree, is the forced binding of the key |
| Migration.Strnicmp | include/aros_compat.h:48-53 | the comparison loop returns 0 exactly when the first n characters agree without case, terminators included, and else the first difference |
| Migration.MigrateStringLaw | neptune.library/neptune.library.c:8195-8222 | a string is rewritten exactly when it starts with the old name up to a component boundary; the new text is the new name and the old rest, the result tells whether it changed, every other chunk is kept |
| Migration.MigratesIff | neptune.library/neptune.library.c:8195-8213 | a string is rewritten exactly when it is there and begins with the old name, whatever the case, and ends there or goes on with a slash |
| Migration.MigrateIdempotent | neptune.library/neptune.library.c:8230-8253 | pMigrateCfg reports a change exactly when an old name is left in a place it looks at, changes the tree exactly then, and a second run returns FALSE and leaves the tree as it is |
| Migration.CfgMigrated | neptune.library/neptune.library.c:8230-8253 | every form keeps its place; device forms and the first stack form are migrated, every other form is as it was |
| Migration.DeviceMigrated | neptune.library/neptune.library.c:8245-8252 | in a device form the owner strings of both kinds of items are migrated, and nothing else is touched |
| Migration.StackMigrated | neptune.library/neptune.library.c:8237-8243 | in the stack form the names of the class forms and the two sounds are migrated, and nothing else is touched |
| MigrationLoops.MigrateChunk | neptune.library/neptune.library.c:8195-8222 | pMigrateCfgString on a chunk buffer: the string is compared in place and the new one is built before the buffer is compacted; the form then stands for what the value-level call says |
| MigrationLoops.MigrateTree | neptune.library/neptune.library.c:8230-8253 | pMigrateCfg on the linked tree, form by form through its own pointer |
| AltSetting.AllOrNothing | neptune.library/neptune.library.c:2008-2131 | switching through a pipe: success switches exactly the one interface and failure leaves the tree, and the controller's endpoints are those of the alternates heading the list exactly unless the first op worked, the device did not follow, the take-back op failed and the two alternates use different addresses |
| AltSetting.TreeAfter | neptune.library/neptune.library.c:2038-2097 | the call succeeds exactly when there was nothing to reconfigure or the op worked, SET_INTERFACE succeeded or stalled, and GET_INTERFACE succeeded and returned the number; the list is rotated then and only then |
| AltSetting.TokensAfter | neptune.library/neptune.library.c:3033-3066 | the endpoints in use keep or regain their submit tokens exactly when the switch took place, the old alternate has no endpoints, or both ops worked |
| AltSetting.TokenLost | neptune.library/neptune.library.c:3038-3057 | a first op that fails leaves the endpoint with the controller and its token cleared |
| AltSetting.RotateKeeps | neptune.library/neptune.library.c:2072-2094 | the rotation keeps the set of alternates, the number, the place and the binding; switching back finds the old alternate last |
| AltSetting.RunAgrees | neptune.library/neptune.library.c:2008-2131 | over any sequence of calls whose take-back ops work, controller and list agree on the endpoints |
| AltInterfaces.ContextSet | neptune.library/neptune.library.c:3003-3070 | pContextSetInterface on the endpoint lists and the controller |
| AltInterfaces.MoveAll | neptune.library/neptune.library.c:2084-2091 | the loop that moves the remaining alternates to the new head |
| AltInterfaces.PromoteHead | neptune.library/neptune.library.c:2072-2094 | the list surgery makes the alternate the head, with every other alternate parented to it and holding nothing, and is the rotation |
| AltInterfaces.Config.SetAltInterface | neptune.library/neptune.library.c:2008-2131 | psdSetAltInterface on the linked nodes: its interface becomes what the value-level call says, in the same list position, and every other interface is untouched |
| Bindings.BindIfOk | neptune.library/neptune.library.c:7850-7868 | binding a free interface of the current configuration of a device nobody holds keeps the device sound |
| Bindings.SwitchConfigOk | neptune.library/neptune.library.c:7796-7800 | the configuration may be changed while no interface is bound |
| UsbStacks.UsbStack.HubClassScan | neptune.library/neptune.library.c:7730-7957 | for any answers of classes and device a scan does exactly what `Scans.Scanned` says of them. Nothing changes without a pipe, for a device that is held, or where class bindings are off. With interfaces bound only the current configuration is offered; a free device with a forced class goes to the first class of that name, if it takes it; otherwise the first configuration that is or can be put in force and has a taker gets all its interfaces offered, and if none has, the device goes to the first class that takes it. It keeps every use count equal to the number of bindings naming the class, device and interface bindings exclusive and interface bindings in the current configuration, and nothing that was bound is lost |
| UsbStacks.UsbStack.OfferConfig | neptune.library/neptune.library.c:7801-7905 | the interfaces of one configuration: a free one is bound exactly when some admitted class takes one of its alternates and the device switches to it, and then for the first such alternate and the first such class; bound ones stay |
| Scans.SelectedIff | neptune.library/neptune.library.c:7793-7801 | a configuration gets its turn exactly when it can be set, or was in force and none before it could be set |
| Scans.ScanKeeps | neptune.library/neptune.library.c:7730-7957 | whatever the answers, a scan only adds bindings, of classes on the list and of the forced one where one is forced, and keeps the configuration while interfaces are bound |
| UsbStacks.UsbStack.OfferInterface | neptune.library/neptune.library.c:7809-7892 | one interface offered, active alternate first: it is bound to the first class that takes the first alternate the device switches to, a forced owner admits no other class, and without such an alternate it stays free |
| UsbStacks.FindInterface | neptune.library/neptune.library.c:7850-7864 | the walk back to the interface finds it: it cannot fall off the end of the list |
| UsbStacks.HasIfBinding | neptune.library/neptune.library.c:7755-7770 | the configuration that has bound interfaces is the current one |
| UsbStacks.UsbStack.HubClaimAppBinding | neptune.library/neptune.library.c:7961-8003 | an application claims a device exactly when neither it nor an interface of it is bound |
| UsbStacks.UsbStack.HubReleaseDevBinding | neptune.library/neptune.library.c:8006-8036 | releasing a device binding frees the fields and gives the count back |
| UsbStacks.UsbStack.HubReleaseIfBinding | neptune.library/neptune.library.c:8040-8063 | releasing an interface binding frees the fields and gives the count back |
| UsbStacks.UsbStack.ReleaseAll | neptune.library/neptune.library.c:7302-7338 | the restart loop ends, and leaves exactly the bindings of others |
| UsbStacks.UsbStack.RemClass | neptune.library/neptune.library.c:7291-7354 | psdRemClass releases every binding of the class and no other, leaves the use counts of the others as they were, and never finds the class still in use |
| UsbStacks.UsbStack.UnbindAll | neptune.library/neptune.library.c:7671-7726 | psdUnbindAll ends with no binding anywhere and all use counts 0 |
| UsbStacks.UsbStack.constructor | neptune.library/neptune.library.c:1764-1791 | devices as they are allocated, with nothing bound, and no class loaded: all use counts are exact |
| UsbStacks.UsbStack.AddClass | neptune.library/neptune.library.c:7230-7285 | a class is added, with use count 0, exactly when no class of its name is on the list |
| UsbStacks.Live | neptune.library/neptune.library.c:7230-8063 | from a stack without bindings, after any sequence of scans, claims, releases, class additions and removals with any answers: every use count is the number of bindings naming the class, and every device is held by one party at most, or on interfaces of its current configuration |
| StreamWrite.WriteGood | neptune.library/neptune.library.c:6830-6954 | one buffered write loses and reorders nothing, sends whole packets, and never fills the buffer beyond its size; the whole packets left in the buffer are none or less than half of it |
| StreamWrite.WriteSends | neptune.library/neptune.library.c:6830-6954 | the number and sizes of the transfers of a write: with an empty buffer all whole packets at once; what fits is kept back until half the buffer is full; what does not fit goes in the completed packets of the buffer and the whole packets that follow |
| StreamWrite.StreamIsFifo | neptune.library/neptune.library.c:6768-7056 | over any sequence of writes and flushes what was sent, followed by what is buffered, is what was accepted |
| StreamWrite.StepSound | neptune.library/neptune.library.c:7031-7053 | a flush sends exactly the buffered bytes and leaves none |
| StreamWrite.BoundIff | neptune.library/neptune.library.c:4052-4054 | no copy passes BufferSize over all runs exactly when the buffer holds a packet, which psdSetAttrs sees to, or packets are single bytes |
| OutStreams.OutStream.Write | neptune.library/neptune.library.c:6830-6954 | psdStreamWrite on the buffer in place |
| OutStreams.OutStream.SendBuffered | neptune.library/neptune.library.c:6864-6897 | the first bytes of the buffer are sent and the rest moved to its front |
| OutStreams.OutStream.Flush | neptune.library/neptune.library.c:7031-7053 | psdStreamFlush on an OUT stream |
| InStreams.InStream.CopyPacket | neptune.library/neptune.library.c:6615-6689 | with bytes pending there is a packet and the offset is within it, so neither internal error can occur; what is copied is the next of it, as much as asked for or all, up to the first terminator; it ends the read exactly at a terminator, or when a packet is used up that is short and short packets end reads |
| InStreams.InStream.CopyOut | neptune.library/neptune.library.c:6614-6693 | the copy loop hands out the next bytes in order, all that was asked for or all there are unless something ends it, which is exactly a failure before it, a terminator, or a short packet it has finished; it goes past neither of the two, and after a failure takes one packet |
| InStreams.InStream.StreamRead | neptune.library/neptune.library.c:6581-6740 | the read returns at the first look at its port that gives it what it asked for, a terminator, the end of a short packet, a failure, an abort or a reason not to wait, and goes on exactly as long as none of these is there and everything buffered is handed out; what readers got is the received bytes in order, and a read goes past no terminator |
| InStreams.InStream.IsEnd | neptune.library/neptune.library.c:6653-6667 | the search loop through the terminator array |
| InStreams.StopsIff | neptune.library/neptune.library.c:6653-6667 | on any array the search finds a character exactly at a place that only smaller characters come before, none of them followed by itself |
| InStreams.AscendingFindsAll | neptune.library/neptune.library.c:6653-6667 | in an array in ascending order, filled up with its last character, the search finds exactly the characters of the array |
| InStreams.GreatestFirstFindsOne | neptune.library/neptune.library.c:6653-6667 | with the greatest character first it finds that one and no other |
| StallRecovery.EncodingInverse | neptune.library/neptune_intern.h:430-439 | the bit of an endpoint address and the address of a bit are inverse, so the clear names the endpoint that was marked |
| StallRecovery.NoMarkLost | neptune.library/neptune.library.c:3623-3670 | under any interleaving, with the event task outside the sweep a marked device means the request flag is up or a completion is about to raise it |
| StallRecovery.StepKeepsInv | neptune.library/neptune.library.c:6054-6065 | every step of every task keeps that true, during a sweep for the devices already passed |
| StallRecovery.MarksConserved | neptune.library/neptune.library.c:3547-3558 | every bit set is taken by one clear, cancelled by a class, dropped with its device, or still set |
| StallRecovery.FateTold | neptune.library/neptune.library.c:6199-6208 | each step sets, takes, cancels or drops a bit in the way told of it; the snoop hits the bit of the cleared endpoint and no other |
| StallRecovery.DropsExcused | neptune.library/neptune.library.c:3595-3660 | marks are only dropped when the sweep has just found the device unusable or no pipe for it |
| StallRecovery.SweepClears | neptune.library/neptune.library.c:3607-3617 | a usable device with a pipe is cleared: when the event task is done with it every bit that was set has drawn one clear or was cancelled by a class, and none is left, unless the device is marked meanwhile |
| StallRecovery.SweepEnds | neptune.library/neptune.library.c:3623-3670 | a sweep ends after one device, however the others interfere |
| Power.DrainBound | neptune.library/neptune.library.c:10055-10096 | a bus-powered device that is awake draws at most 100 mA a child and its own maximum |
| Power.BudgetIff | neptune.library/neptune.library.c:10099-10157 | a configured hub grants its ports no more than its supply leaves exactly when it is self-powered or given at least its maximum; an unconfigured one exactly when 500 mA a port are there |
| Power.GrantIs | neptune.library/neptune.library.c:10107-10143 | a port gets 500 mA below a self-powered hub; below a bus-powered one the largest share up to 100 mA with which all ports stay within what the hub has left, or 1 mA when its own maximum is not there |
| Power.DrainIs | neptune.library/neptune.library.c:10055-10096 | a suspended device draws 3 or 1 mA, a self-powered one nothing, any other its maximum and what its children draw, each at most 100 mA |
| Power.GrantBound | neptune.library/neptune.library.c:10123-10143 | no device is given more than 500 mA, below a bus-powered hub not more than 100 |
| PowerPass.Hardware.RecurseDrain | neptune.library/neptune.library.c:10055-10096 | the drain pass sets the specified drain on every device it reaches and nothing else; it does not look below a sleeping device |
| PowerPass.Hardware.RecurseSupply | neptune.library/neptune.library.c:10099-10171 | the supply pass gives every device below its share and marks it exactly when its drain exceeds its supply |
| PowerPass.Hardware.CalculatePower | neptune.library/neptune.library.c:5694-5717 | after psdCalculatePower every device has its share and PDFF_LOWPOWER holds exactly when drain exceeds supply |
| BusyCount.BusyIsExact | neptune.library/neptune.library.c:5989-6015 | over any interleaving on any number of pipes the count of a device is the weights of its counted requests in flight plus the streams started on it less those stopped, and every submit is replied once or in flight |
| BusyCount.IdleIff | neptune.library/neptune.library.c:6077-6095 | with nothing in flight the count is 0 exactly when as many streams were stopped as started |
| BusyCount.StepKeepsCount | neptune.library/neptune.library.c:6248-6304 | begin, submit, completion, rejection, and the start and stop of a realtime stream change the count by exactly what they say, and housekeeping ops not at all |
| BusyCount.StrayStop | neptune.library/neptune.library.c:7211-7223 | a stop that succeeds without a start takes the count to -1 |
| LinkPower.Arm | neptune.library/neptune.library.c:3249-3369 | the policy bit is always set; the controller's bit exactly when it was or the controller took the policy, and those the hub and the device accepted exactly when the controller took it |
| LinkPower.Disarm | neptune.library/neptune.library.c:3403-3435 | nothing is left but the controller's bit, which stays exactly when it was set and the controller refuses; the controller is asked exactly when its bit was set |
| LinkPower.Stack.Sweep | neptune.library/neptune.library.c:3477-3511 | the sweep ends, brings every eligible device in line in one visit, with the policy bit exactly where it is enabled for the device or left to a policy that is on, touches no other, and tells exactly those controllers to tear down that hold state for a device whose policy bit it takes away |
| LinkPower.SweptIs | neptune.library/neptune.library.c:3226-3238 | one visit: what a configured and usable device ends with for each setting of the user, and that others and those in line stay as they are |
| LinkPower.AlwaysCovered | neptune.library/neptune.library.c:3249-3306 | over any run of sweeps, configurations, settings and device changes: whatever a device or its port was told, the controller's bit is set with it |
| LinkPower.RetriedIff | neptune.library/neptune.library.c:3399-3511 | over any such run a controller teardown that was refused is attempted again exactly when the policy was put into force on the device again and a later sweep finds it withdrawn |
| LinkPower.RefusedStays | neptune.library/neptune.library.c:3399-3511 | until then the leftover bit stays and no sweep does anything about it |
| LinkPower.RefusedNotRetried | neptune.library/neptune.library.c:3418-3434 | an input: a refused teardown, a sweep that does nothing about it, and the policy switched on and off, after which it is attempted again |

## Left out

- Locks: a read-lock record is identified by its task, not by its address; lending and reclaiming
  find the record of a task by that.
- Locks: memory for the lists of a borrow is always there, counters do not wrap at 16 bits, no
  semaphore is created or deleted during a borrow, and a task does not borrow from itself.
- Locks: the deadlock report and the debug list are not modelled.
- Lending.LendingConservesLocks: requires a borrower that is not queued for a shared lock the lender owns, that never releases more than it acquired, and a lender that takes no other step meanwhile; the last loop of the source, which asks for the reclaims again, appears as any run in which the lender makes exactly those calls.
- Lending.LendingRestoresLocks: requires the same, and memory for the lender's read locks in the last loop; without it a shared lock comes back as an exclusive one, as everywhere in pLockSemShared, and only `Lending.LendingConservesLocks` and `Lending.OwnerOwnsAgain` hold.
- Lending.LendingKeepsAwake: ends where the last loop begins to ask for the reclaims again; those are ordinary lock steps, for which `LockRuns.NextAwake` holds.
- Lending.RunLoansOut: speaks of runs of the lock and unlock steps only, not of a second borrow inside the first.
- Iff: the parser counts memory that ends before a chunk does as a failure; the source reads on.
- Iff: the length cached in `pic_FormLength` is not a field of the model; the printer uses the length the same pass computes. The checksum over the tree is not modelled.
- IffContexts.Context.AddSubForm: links the new form after filling it where the source links it first; nothing reads the list in between. Freed memory is not tracked.
- ConfigRoots.ConfigRoot.SetUsbDevCfg: strings and data stay below 2 GB and every allocation succeeds; forms that are freed are just no longer reachable. The same holds for `ConfigRoots.ConfigRoot.SetForcedBinding`.
- ConfigStore: a string chunk without a terminator ends with its data; the source reads into the next chunk.
- Saving and loading the configuration files, the global configuration chunk and the change events are I/O or plumbing.
- MigrationLoops.MigrateTree: the new strings fit into memory.
- AltSetting: an op of the controller that fails leaves the controller's endpoints as they were, and the two are compared on addresses and tokens only, not on endpoint parameters or stream rings. The legacy controller, whose op does nothing, is not modelled; a call without a pipe changes only the list (`AltInterfaces.Config.SetAltInterface`).
- AltSetting.AllOrNothing: assumes that no two interfaces of a configuration share an endpoint, as section 9.6.5 of USB 2.0 requires.
- UsbStacks: devices, configurations and interfaces are values in lists of the class; an interface stands for its place in the list, where a switch leaves the binding (`AltSetting.RotateKeeps`). Class drivers answer as they like but do not call back into the stack. Devices and hardware do not come and go during a walk. Opening a class library, and the priority that decides its place on the list, are parameters.
- UsbStacks.UsbStack.HubClassScan: assumes distinct interface numbers within a configuration and distinct non-zero configuration numbers; forced bindings and the answers of classes, controller and device are parameters, which do not change during a scan.
- StreamWrite: every transfer completes in full; partial and failed transfers, aborts, unbuffered mode and the search for terminators are not modelled.
- InStreams.InStream.StreamRead: covers the copying mode; in-place reads, the sending of new requests and their byte count are not modelled, and neither is flushing an IN stream.
- StallRecovery: the conditions under which a completion is marked are left open (any bit of any device may be marked), and devices stay listed once attached.
- Power: device numbers are positions in the list; values do not wrap at 16 bits. A device below a sleeping hub keeps the drain of an earlier pass, as in the source.
- BusyCount: the count does not wrap; changing it is one step, which holds on one processor.
- LinkPower.Stack.Apply: the port and the pipe can be allocated; when they cannot, the source's sweep finds the same device again and does not end. The policy does not change during a sweep, and devices stay listed.
- Enumeration (`psdFindInterfaceA` resumed at a last alternate), idle suspend, hardware matching, name tables, string helpers, the prefs programs, the class drivers, the command line tools and the controller drivers are not part of this model.
