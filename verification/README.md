# The algorithmic parts around the Pharo VM, verified

A Dafny model of the hand-written C and JavaScript around the Pharo virtual
machine where it is an algorithm of its own, with proofs about it.

- **Old-space allocation over `sbrk`** (`RangeLists`, `AllocatorModel`,
  `AllocatorProofs`, `AllocatorRuns`, `Allocator`). The heap is a sequence of
  bytes, `sbrk` a break that the host may refuse to move. Every byte from the
  first break to the current one has exactly one owner: a hole, a block,
  malloc, or a range that a full table leaked. Allocation is lowest fit and
  all zeros, in whole pages and as large as asked for.
- **External semaphores and the poll they wake up** (`ExternalSemaphores`).
  Any number of signalling threads and the VM thread, each a program counter
  over atomic steps: every call is signalled exactly once, no wake-up is lost,
  and a poll sleeps exactly when there is nothing to wake up for.
- **The descriptors of the asynchronous I/O** (`AioRotation`,
  `AioDescriptors`, `AioDispatch`, `AioDispatchProofs`, `AioCalls`). The
  linked lists, the fair rotation of the descriptors that epoll refuses, and the
  dispatch whose handlers may disable descriptors and poll again: who is called,
  and that nothing freed is used.
- **The handle table** (`HandleTable`). Open addressing with swap-back
  deletion, growth and shrinking, as a set.
- **The notebook's text** (`CodeUnits`, `ChunkText`, `ChunkFormat`,
  `ChunkRoundTrip`, `ChunkForeign`, `Scanner`, `ScannerProofs`, `ScannerMeaning`,
  `Highlighter`, `HighlighterProofs`, `HighlightKinds`, `HighlightLoops`,
  `StraightQuotes`), as sequences of UTF-16 code units. The chunk format read
  back from what is printed, and read as others write it; the two scanners of
  Smalltalk that must agree, and what their brackets and colors mean.
- **The notebook's kernel client** (`FrameMachine`, `FrameReader`,
  `KernelMachine`, `KernelProofs`, `KernelFlight`, `KernelOrder`,
  `KernelEvents`, `KernelClient`). The resumable reader of event frames, and the
  queue of cells with stop, restart, dispose and watchdog: cells start in the
  order of their calls, every call settles once, a cell in flight ends by what
  ends it and by nothing else, and no event is lost or taken out of turn.
- **The HTML tidier** (`TidyReader`, `TidyMachine`, `TidyProofs`, `TidyRules`,
  `TidyTags`, `TidyCloses`, `TidyLimits`, `HtmlTidier`). A plain stack machine and what it
  writes in UTF-16 code units; a reader of that text which knows characters
  only, and finds it well nested; and the machine that keeps the indices.
- **Smaller cores** (`FfiAdapt`, `HeapMap`, `SafeQueue`). The FFI width
  adapter, the sparse bitmap of the heap, and the thread-safe queue.

`Basics` has what they share.

Where the source changes state in place, a class has its fields, and each of
its methods is proved equal to a function on values; the properties are lemmas
about those functions, over whole runs where a run is what matters. Where
threads or handlers interleave, the model is a machine over their steps.

Four places where the code and what is said of it differ, as the proofs found
them:

- The root table of the heap map covers addresses below 2^61, not all 64 bits
  as its comment says (`HeapMap.RootCoversExactly`).
- A signal of a semaphore index at or above the table size that a pass is
  given can be forgotten, and only such (`ExternalSemaphores.ForgottenIffBeyondScannedSize`).
- `pending` closes a text that is otherwise finished, except one that ends in
  a `$` and half a surrogate pair (`ScannerProofs.PendingClosersClose`,
  `ScannerProofs.HalfAtTheEndIsNotClosed`).
- A title cut at 200 characters can end in white space, which a second trip
  through the file drops (`ChunkRoundTrip.SecondTripKeepsTitle`,
  `ChunkRoundTrip.ATitleThatASecondTripChanges`).

## Model

| member | source | states |
|---|---|---|
| AllocatorProofs.AllocateAboveIsLowestFit | src/emscripten/memoryEmscripten.c:143-159 | For every lower bound: a non-zero answer is free, lies between the bounds, starts on a page or at the lower bound itself, and no start on a page that fits is lower; with sbrk granting up to the heap maximum, 0 means that no such start exists. The answer allocates: zeros, sole owner, nothing else written |
| AllocatorProofs.AllocateExactlyMeets | src/emscripten/memoryEmscripten.c:125-141 | Answers exactly when the whole range is free and sbrk grants what lies past the break; then the range is zero and has no other owner, otherwise nothing changes |
| AllocatorProofs.CarveAllocates | src/emscripten/memoryEmscripten.c:107-123 | Carving from a hole that holds the range fails exactly when the hole must grow and sbrk refuses, and changes nothing then; otherwise the range is all zeros, whatever parts of it were dirty, and leaves the holes |
| AllocatorProofs.FreeIsHeld | src/emscripten/memoryEmscripten.c:92-105 | A free range that starts below the break lies in one hole, never across two: holes are fully coalesced |
| AllocatorProofs.NothingLower | src/emscripten/memoryEmscripten.c:149-157 | The first suiting hole, or the first start above the break, is not above any start that fits |
| AllocatorProofs.SplitHole | src/emscripten/memoryEmscripten.c:114-119 | Taking the middle out of a hole leaves both ends as holes of the same dirtiness and takes every byte of the middle from the hole list exactly once |
| AllocatorProofs.CarvedIsZero | src/emscripten/memoryEmscripten.c:120-122 | After the dirty part below the old break is zeroed, the whole carved range is zero, a part past the break included |
| AllocatorProofs.PutHoleSound | src/emscripten/memoryEmscripten.c:68-90 | Adding a hole keeps the list sorted, coalesced and clean-is-zero, and gives each byte of the range one owner more; a full table loses the range, nothing else |
| RangeLists.AddHoleCoalesced | src/emscripten/memoryEmscripten.c:68-90 | Inserting a disjoint range and merging it with its neighbours leaves a sorted list without touching ranges |
| RangeLists.CountAddHole | src/emscripten/memoryEmscripten.c:68-90 | Every address is covered as often as before, once more inside the added range |
| RangeLists.AddHoleKeepsClean | src/emscripten/memoryEmscripten.c:78-89 | Clean holes stay zero through merging: a merge of dirty and clean is dirty |
| RangeLists.Neighbours | src/emscripten/memoryEmscripten.c:73-76 | The index found separates the holes below the range from those above it |
| RangeLists.CoalescedAround | src/emscripten/memoryEmscripten.c:77-89 | A range put between two parts of the list that it does not touch keeps the list sorted and coalesced |
| AllocatorModel.AlignUp | src/emscripten/memoryEmscripten.c:39 | The least multiple of the page size at or above v |
| AllocatorModel.RequestSize | src/emscripten/memoryEmscripten.c:190 | Whole pages, at least the size asked for and at least one byte, and less than a page more |
| AllocatorModel.FirstHolding | src/emscripten/memoryEmscripten.c:131-133 | The first hole that holds the range, none before it does |
| AllocatorModel.FirstSuiting | src/emscripten/memoryEmscripten.c:149-154 | The first hole whose aligned candidate fits and is held |
| AllocatorModel.FindBlock | src/emscripten/memoryEmscripten.c:247-248 | The first block that starts at the address |
| AllocatorRuns.SqAllocateMemoryMeets | src/emscripten/memoryEmscripten.c:187-238 | Every branch: exits exactly when the old-space base is no power of two in its window; otherwise the block answered is of whole pages, at least the size asked for (and one byte) and less than a page more, all of it was free and is zero, and it is recorded to its end; nothing else is written; the first old segment is at the base, later ones inside the window, fixed spaces exactly where asked, perm space never; and which requests are granted, as RequestsAreGranted has it |
| AllocatorRuns.RequestsAreGranted | src/emscripten/memoryEmscripten.c:187-218 | For the size in whole pages (see AllocatorModel.RequestSize): a request for a given place (the first old segment, a fixed space) succeeds if and only if the place is free and sbrk grants its part past the break; one for a window (more old space, anywhere) succeeds, with sbrk granting up to the heap maximum, if and only if something on a page in the window fits |
| AllocatorRuns.ServedIsSized | src/emscripten/memoryEmscripten.c:190-221 | What is served, without a word of how the size is computed: whole pages, no page too many, all that was asked for free before, zero now, and recorded as far as it goes |
| AllocatorRuns.PowersHalve | src/emscripten/memoryEmscripten.c:175-179 | The test by halving accepts every power of two |
| AllocatorRuns.HalvesToOne | src/emscripten/memoryEmscripten.c:175-179 | ... and nothing else |
| AllocatorRuns.AboveIsGranted | src/emscripten/memoryEmscripten.c:143-159 | With sbrk granting up to the heap maximum, an answer above a page-aligned bound is non-zero if and only if some start fits |
| AllocatorRuns.SqDeallocateKeepsInv | src/emscripten/memoryEmscripten.c:244-254 | Freeing a recorded segment turns exactly its range into a hole, keeps exactly the other blocks, and keeps the invariant; an unknown address changes nothing |
| AllocatorRuns.FreedKeepsInv | src/emscripten/memoryEmscripten.c:249-250 | A block moved among the holes keeps the invariant and covers exactly what both covered |
| AllocatorRuns.BlocksAreDisjoint | src/emscripten/memoryEmscripten.c:220-221 | No two live blocks overlap |
| AllocatorRuns.StoreKeepsInv | src/emscripten/memoryEmscripten.c:120-121 | Writing to memory that the program owns never dirties a clean hole or the space above the break |
| AllocatorRuns.MallocBreakKeepsInv | src/emscripten/memoryEmscripten.c:25-26 | malloc moving the break between the calls keeps the invariant |
| AllocatorRuns.StepKeepsInv | src/emscripten/memoryEmscripten.c:187-254 | Any request, free, malloc, store or change of what sbrk grants keeps the invariant |
| AllocatorRuns.RunKeepsInv | src/emscripten/memoryEmscripten.c:187-254 | In every reachable state holes, blocks, malloc and leaked ranges are pairwise disjoint and cover exactly the space from the first break to the current one, holes are coalesced, clean ones and the space above the break are zero |
| AllocatorRuns.RunLosesNothing | src/emscripten/memoryEmscripten.c:73-74 | As long as no range table is full, nothing leaks: holes, blocks and malloc alone cover the space, each byte once |
| Allocator.Memory.constructor | src/emscripten/memoryEmscripten.c:51-59 | The empty lists over a zeroed memory are an initial state of the runs |
| Allocator.Memory.Sbrk | src/emscripten/memoryEmscripten.c:115 | The break moves exactly when the host grants it |
| Allocator.Memory.RemoveHoleAt | src/emscripten/memoryEmscripten.c:61-66 | The array without the hole at an index, the others shifted down |
| Allocator.Memory.JoinHoles | src/emscripten/memoryEmscripten.c:80-89 | A hole and the next one that begins at its end become one, dirty when either was |
| Allocator.Memory.InsertHole | src/emscripten/memoryEmscripten.c:77-79 | The array with the range put in, the others shifted up |
| Allocator.Memory.FindPosition | src/emscripten/memoryEmscripten.c:75-76 | The first hole that does not start below |
| Allocator.Memory.AddHole | src/emscripten/memoryEmscripten.c:68-90 | The array loop does what the coalescing insertion of the model does |
| Allocator.Memory.Memset | src/emscripten/memoryEmscripten.c:121 | Exactly the range becomes zero |
| Allocator.Memory.Carve | src/emscripten/memoryEmscripten.c:107-123 | The new heap and the answer are those of the model, whose zero-fill and ownership CarveAllocates proves |
| Allocator.Memory.HoldsRange | src/emscripten/memoryEmscripten.c:95-105 | Whether a hole holds the range, or would with the break moved |
| Allocator.Memory.AllocateExactly | src/emscripten/memoryEmscripten.c:126-141 | The loop over the holes and the break case, against the model that AllocateExactlyMeets is about |
| Allocator.Memory.AllocateAbove | src/emscripten/memoryEmscripten.c:144-159 | The loop over the holes and the break case, against the model that AllocateAboveIsLowestFit is about |
| Allocator.Memory.SqAllocateMemory | src/emscripten/memoryEmscripten.c:187-238 | All branches with their state, against the model that SqAllocateMemoryMeets is about; the block has whole pages and the size asked for, was free and is zero; the invariant holds after it |
| Allocator.Memory.RecordBlock | src/emscripten/memoryEmscripten.c:220-221 | The block is recorded, or leaked by a full table |
| Allocator.Memory.ForgetBlock | src/emscripten/memoryEmscripten.c:250 | The last block takes the place of the freed one |
| Allocator.Memory.SqDeallocate | src/emscripten/memoryEmscripten.c:245-254 | The segment recorded at the address becomes a dirty hole; whether it was known |
| ExternalSemaphores.ReachableKeepsInv | src/common/sqExternalSemaphores.c:168-286 | In every reachable state, over any number of signallers: one owner of the mutex, responses equal to the signals made and never above the requests, and every unanswered index remembered |
| ExternalSemaphores.EveryCallIsSignalledOnce | src/common/sqExternalSemaphores.c:186-286 | Over every interleaving, counted in the steps taken: the VM signals an index at most as often as it was called for; with the flag clear, no pass on and no caller before its increment, exactly as often, for every index below the scanned size |
| ExternalSemaphores.CallsAreRequests | src/common/sqExternalSemaphores.c:186-192 | Over every run: the calls for an index are its requests and the callers that have not got to their increment; no two calls count as one |
| ExternalSemaphores.DeliveredAreSignals | src/common/sqExternalSemaphores.c:274-279 | Over every run: what is called delivered counts the steps that signal |
| ExternalSemaphores.NobodyIsStuck | src/common/sqExternalSemaphores.c:186-286 | A thread that cannot go on waits for the mutex, and whoever holds the mutex can go on |
| ExternalSemaphores.StepKeepsInv | src/common/sqExternalSemaphores.c:168-286 | Every single step of a signaller or of the VM keeps that invariant |
| ExternalSemaphores.RunKeepsInv | src/common/sqExternalSemaphores.c:168-286 | The same over whole interleavings |
| ExternalSemaphores.SignalKeepsInv | src/common/sqExternalSemaphores.c:186-204 | Each step of a signaller, through the mutex, the tide marks and the wake-up write, keeps the invariant (that each call counts is CallsAreRequests) |
| ExternalSemaphores.VmKeepsInv | src/common/sqExternalSemaphores.c:225-286 | Each step of a pass, and of the poll, keeps the invariant |
| ExternalSemaphores.NoSignalLostOrInvented | src/common/sqExternalSemaphores.c:225-286 | Signals delivered never exceed requests; at rest with the flag down they are equal for every index below the scanned size (EveryCallIsSignalledOnce says the same of the calls) |
| ExternalSemaphores.UnansweredIsRemembered | src/common/sqExternalSemaphores.c:189-199 | An index with requests not answered is inside the active tide with the flag set, being recorded by the holder of the mutex, or still ahead of the pass |
| ExternalSemaphores.PassDeliversAll | src/common/sqExternalSemaphores.c:248-279 | A pass that ends has delivered every request made before it cleared the flag, as a full scan of the table would |
| ExternalSemaphores.AtSwapIsRequestsWhenCleared | src/common/sqExternalSemaphores.c:248 | What PassDeliversAll calls the requests before the pass are those at the moment the flag is cleared |
| ExternalSemaphores.BeyondTheScannedSizeASignalIsLost | src/common/sqExternalSemaphores.c:271-274 | A run in which a request for an index at or above the scanned size is forgotten: its flag and tide marks are cleared, nothing is delivered |
| ExternalSemaphores.ForgottenIffBeyondScannedSize | src/common/sqExternalSemaphores.c:271-274 | A request can be forgotten if and only if its index is at or above the scanned size |
| ExternalSemaphores.NoLostWakeUp | src/unix/aio.c:200-212 | In no reachable state is the VM asleep with a timeout, the flag set and the pipe empty, unless a signaller is between setting the flag and its write to the pipe |
| ExternalSemaphores.APollSleepsIffNothingIsThere | src/unix/aio.c:380-402 | Over every run: a poll sleeps in epoll_wait if and only if it was given time, and found no interruption and no flag when it began, no refused descriptor and no interruption with the epoll set filled, and no flag at its last look |
| ExternalSemaphores.TheWriteMayStillBeToCome | src/unix/aio.c:488-494 | Such a signaller is needed as an excuse up to its last moment: in a run of one signaller the VM sleeps, the flag is set, the pipe is empty, and the signaller is past its test of isPooling |
| ExternalSemaphores.WakingStays | src/unix/aio.c:486-506 | A signaller that tests isPooling and writes, or does not, leaves a wake-up coming for every sleeping poll with the flag set |
| ExternalSemaphores.InitialInv | src/common/sqExternalSemaphores.c:75-77 | The empty tides and the idle threads satisfy the invariant |
| AioRotation.TurnIsRotation | src/unix/aio.c:313-341 | A turn reports min(25, R) refused descriptors, the k-th at position (P + k) mod R, and the next turn starts at (P + min(25, R)) mod R; a P at or past R counts as 0 |
| AioRotation.EveryoneIsReported | src/unix/aio.c:230-236 | From any start every refused descriptor is reported within ceil(R / 25) turns one after the other |
| AioRotation.StartsMoveOn | src/unix/aio.c:338-341 | The start of the n-th turn is (P + n min(25, R)) mod R |
| AioRotation.StartsAgree | src/unix/aio.c:315-341 | A start past the end of a list that became shorter acts as a start at the first descriptor, in this turn and all later ones |
| AioRotation.NothingToReport | src/unix/aio.c:338-341 | With nothing refused the rotation starts anew |
| AioDescriptors.Turn.Keep | src/unix/aio.c:313-322 | A refused descriptor goes to the buffer of its side of the start, each cut to 25 |
| AioDescriptors.Turn.Finish | src/unix/aio.c:334-341 | The wrapped ones fill what room is left, and the next start is that of the rotation |
| AioDescriptors.Descriptors.Ask | src/unix/aio.c:272-325 | One descriptor is asked for when its mask has something to watch; its errno is remembered, and it is reported unless memory or watches ran out or it has no handler |
| AioDescriptors.Descriptors.Gather | src/unix/aio.c:269-328 | The walk along the linked list leaves both buffers with what they should hold of all refused descriptors, and every errno remembered |
| AioDescriptors.Descriptors.FillEPollDescriptor | src/unix/aio.c:242-344 | The refused descriptors written are those of the rotation from the old start, and the new start is its next one |
| AioDescriptors.Descriptors.CollectEvents | src/unix/aio.c:402-431 | Never more than 50 events: those that epoll answered, then one for each refused descriptor, saying ready or failed and which handlers it has |
| AioDescriptors.Descriptors.FindNode | src/unix/aio.c:645-656 | The first node of an fd in the list, or none |
| AioDescriptors.Descriptors.FindWithPrevious | src/unix/aio.c:687-705 | The same, with the node before it |
| AioDescriptors.Descriptors.Add | src/unix/aio.c:521-527 | A new node in front of the linked list |
| AioDescriptors.Descriptors.Enable | src/unix/aio.c:508-531 | The linked list as the model has it: a new descriptor in front, or new data for the one there; a negative fd is ignored |
| AioDescriptors.Descriptors.SetHandler | src/unix/aio.c:581-597 | The handlers and the mask of the descriptor of an fd, if any |
| AioDescriptors.Descriptors.Suspend | src/unix/aio.c:602-634 | The handlers and mask bits suspended go, unless nothing was armed |
| AioDescriptors.Descriptors.Unlink | src/unix/aio.c:687-700 | The node leaves the list, whose other nodes keep order and contents |
| AioDescriptors.Descriptors.Retire | src/unix/aio.c:662-675 | Freed outside every dispatch, else parked in front with fd -1 and no handlers |
| AioDescriptors.Descriptors.Disable | src/unix/aio.c:639-643 | The first descriptor of the fd leaves the list and is retired |
| AioDescriptors.Descriptors.RemoveAll | src/unix/aio.c:710-718 | Every descriptor leaves the list and is retired, in order |
| AioDescriptors.Descriptors.FreeRetired | src/unix/aio.c:677-685 | The parked list is freed to its end |
| AioDispatchProofs.NothingFreedIsUsed | src/unix/aio.c:437-476 | Whatever handlers and nested polls do: no freed descriptor is read, none is freed twice, and outside every dispatch every removed one has been freed |
| AioCalls.ABatchCallsWhatItOwes | src/unix/aio.c:437-476 | A batch whose handlers call nothing back ends within four steps for an event, and calls exactly the handlers that its events owe a call, each with its fd, data and flags, in the order of the events, reading before writing; its descriptors are disarmed, and nothing else changes |
| AioCalls.ReadIsServed | src/unix/aio.c:445-460 | Whatever handlers did before: a descriptor in the list when its event is taken is disarmed, and its read handler is called if and only if it has one and the event says readable, with the failure flag when failed |
| AioCalls.WriteIsServed | src/unix/aio.c:461-467 | After that, when it is still in the list, the write handler that it has by then is called in the same way |
| AioCalls.EventIsServed | src/unix/aio.c:445-470 | One event of a descriptor in the list is served to its end |
| AioCalls.RegisteredAsAsked | src/unix/aio.c:508-597 | After enabling and setting a handler the descriptor of the fd has the data, the mask and the handlers asked for |
| AioCalls.OthersStay | src/unix/aio.c:508-656 | A call for one fd leaves the descriptors of all others as they are |
| AioCalls.SuspendedIsSilent | src/unix/aio.c:602-634 | Suspended handlers get no call until they are set again |
| AioCalls.DisabledIsGone | src/unix/aio.c:639-675 | No descriptor of the fd is left; outside a dispatch it is freed, inside it is parked |
| AioDispatchProofs.RunKeepsInv | src/unix/aio.c:437-476 | Over every sequence of calls, from the VM and from handlers at any depth: events in progress name allocated descriptors, each descriptor is in exactly one of the list, the parked ones and the freed ones, depth is the number of dispatches, fds in the list are distinct |
| AioDispatchProofs.TakeKeepsInv | src/unix/aio.c:437-718 | Each single call or dispatch step keeps that invariant |
| AioDispatchProofs.DispatchedKeepsInv | src/unix/aio.c:439-474 | Each step of the dispatch loop keeps it, the end of the outermost one, which frees, included (which handlers a step calls is AioCalls.ReadIsServed and WriteIsServed) |
| AioDispatchProofs.RemoveKeepsInv | src/unix/aio.c:662-675 | Removing a descriptor during a dispatch keeps it in memory for the events that name it |
| AioDispatchProofs.FinishedKeepsInv | src/unix/aio.c:472-474 | When the outermost dispatch ends no event is left that names what is freed |
| AioDispatchProofs.RetiredFreedMeans | src/unix/aio.c:677-685 | All parked descriptors are freed, each once, in order |
| AioDispatchProofs.CallsAreToTheList | src/unix/aio.c:445-467 | No call but what is right: handlers are called by the dispatch only, one at a time, of descriptors in the list, with their fd and data and the handler they have (that they are called is ABatchCallsWhatItOwes) |
| AioDispatchProofs.RemovedGetsNoCall | src/unix/aio.c:77-82 | A descriptor once removed is never called again, by no batch in progress and no later one, also when its fd is enabled again |
| AioDispatchProofs.ParkedHasNoHandler | src/unix/aio.c:669-672 | What an event finds with an fd or a handler is in the list |
| AioDispatchProofs.AllRemovedKeepsInv | src/unix/aio.c:710-718 | Removing all during a dispatch keeps the invariant |
| HandleTable.FoundDecidesMembership | include/pharovm/win/sqWin32HandleTable.h:120-126 | When every handle is reachable from its home, the slot that the probe finds decides membership |
| HandleTable.StoreKeepsProbed | include/pharovm/win/sqWin32HandleTable.h:94-99 | Storing at the found slot keeps every handle reachable and adds exactly that one |
| HandleTable.ClearingStartsFixing | include/pharovm/win/sqWin32HandleTable.h:110-112 | After clearing a slot only probes that pass the hole are broken, and the set loses exactly that handle |
| HandleTable.ScanGoesOn | include/pharovm/win/sqWin32HandleTable.h:77-81 | A handle found where it is leaves the hole the only gap, one slot further |
| HandleTable.FoundAtHole | include/pharovm/win/sqWin32HandleTable.h:80-81 | A handle not found where it is is found at the hole, and its probe passes the hole |
| HandleTable.SwapKeepsFixing | include/pharovm/win/sqWin32HandleTable.h:81-85 | The swap moves the hole and loses no handle, with wrap-around |
| HandleTable.SwapLowersTotal | include/pharovm/win/sqWin32HandleTable.h:81-85 | Each swap strictly lowers the total probe distance, so the fix-up ends |
| HandleTable.FixedIsProbed | include/pharovm/win/sqWin32HandleTable.h:79 | When the scan meets an empty slot every handle is reachable again |
| HandleTable.FullCounts | include/pharovm/win/sqWin32HandleTable.h:50 | A table without an empty slot holds as many handles as slots |
| HandleTable.HandlesAtMostSlots | include/pharovm/win/sqWin32HandleTable.h:27-28 | No more handles than slots |
| HandleTable.TableSizeIsPowerPlusOne | include/pharovm/win/sqWin32HandleTable.h:96 | A size that the table reaches is 2 to the k plus 1, k at least 2 |
| HandleTable.GrownSize | include/pharovm/win/sqWin32HandleTable.h:96 | Growing from 0 or such a size gives such a size |
| HandleTable.Table.constructor | include/pharovm/win/sqWin32HandleTable.h:26-30 | The empty table is the empty set |
| HandleTable.Table.FindHandleInTable | include/pharovm/win/sqWin32HandleTable.h:33-51 | The slot found is the first on the cyclic probe that is empty or holds the item, or -1 when there is none |
| HandleTable.Table.StoreFound | include/pharovm/win/sqWin32HandleTable.h:63-65 | A handle of the old array goes where the new one finds it |
| HandleTable.Table.GrowTableToSize | include/pharovm/win/sqWin32HandleTable.h:54-69 | A fresh array of the new size holds the same set, growing a full table and shrinking; every lookup inside finds a slot |
| HandleTable.Table.FixCollisionsInTable | include/pharovm/win/sqWin32HandleTable.h:72-87 | The loop ends, and leaves the same set with every handle reachable |
| HandleTable.Table.Store | include/pharovm/win/sqWin32HandleTable.h:99 | The set gains exactly the item |
| HandleTable.Table.AddHandleToTable | include/pharovm/win/sqWin32HandleTable.h:90-101 | The set gains exactly the item (NULL is ignored); count goes up by one, also for a handle already there |
| HandleTable.Table.RemoveHandleFromTable | include/pharovm/win/sqWin32HandleTable.h:104-117 | The set loses exactly the item, through clearing, fix-up and shrinking; count goes down exactly when it was there |
| HandleTable.Table.IsHandleInTable | include/pharovm/win/sqWin32HandleTable.h:120-126 | True exactly for the members of the set |
| ChunkRoundTrip.RoundTrip | packaging/emscripten/web/notebook-st.js:386-473 | For every notebook, whatever ! and " it has: reading its printed text gives the title trimmed and cut, the cells in order with their types, each source in normal form, and no warnings; the cut is at 200 UTF-16 code units |
| ChunkRoundTrip.RoundTripWithEol | packaging/emscripten/web/notebook-st.js:376 | The same when the line ends of the text are made CR LF or CR |
| ChunkRoundTrip.ChunkReadsBack | packaging/emscripten/web/notebook-st.js:428-437 | A chunk printed with doubled ! reads back whole, and leaves the rest of the text |
| ChunkRoundTrip.HeadReadsBack | packaging/emscripten/web/notebook-st.js:387-388 | The printed title is read back from the head comment |
| ChunkRoundTrip.MarkdownReadsBack | packaging/emscripten/web/notebook-st.js:390 | A Markdown cell, its quotes doubled inside its marker comment, is read as one of the same source in normal form |
| ChunkRoundTrip.CodeReadsBack | packaging/emscripten/web/notebook-st.js:391 | A code cell after its marker is read as one of the same source in normal form, whatever comments it begins with |
| ChunkForeign.WhatIsPrinted | packaging/emscripten/web/notebook-st.js:386-395 | The printed text, character by character: the title line, and for each cell its marker, its text with the ! doubled and in Markdown the " too, and a ! |
| ChunkForeign.PlainFilesReadAsCode | packaging/emscripten/web/notebook-st.js:396-473 | A file of DoIts without markers, whoever wrote it and whatever ! it holds: each is a code cell, in order, of which only blank lines in front and white space at the end are lost; no title, no warning |
| ChunkForeign.AByteOrderMarkIsPassed | packaging/emscripten/web/notebook-st.js:423 | A byte order mark in front of a file changes nothing |
| ChunkForeign.AMethodSectionIsLeftOut | packaging/emscripten/web/notebook-st.js:444-452 | A section of methods among other chunks is read over up to its empty chunk, and each method counted, whatever it holds |
| ChunkForeign.AClassCommentIsLeftOut | packaging/emscripten/web/notebook-st.js:450 | So is the comment of a class |
| ChunkForeign.SectionsAreTold | packaging/emscripten/web/notebook-st.js:449-451 | Which section a preamble begins: by the words that stand in it, in that order, where a word may begin, and for the last where it ends |
| ChunkForeign.TheWarningSays | packaging/emscripten/web/notebook-st.js:464-472 | For any numbers of methods and comments left out: the warning names each kind with its number, in the singular or plural; none when nothing was |
| ChunkForeign.AnyMarkerIsOne | packaging/emscripten/web/notebook-st.js:408 | A marker with blanks before and in its brackets, in letters of either case, is one, up to its line feed |
| ChunkForeign.ALaterTitleIsACell | packaging/emscripten/web/notebook-st.js:455 | Only in front of all cells is a title one, and only the first |
| ChunkForeign.TrimBlankLinesTakesNoMore | packaging/emscripten/web/notebook-st.js:379-384 | Trimming takes blank lines in front and white space at the end, and nothing more |
| ChunkForeign.OneLineKeepsTheWords | packaging/emscripten/web/notebook-st.js:387 | A title made one line keeps all that is no white space, in order |
| ChunkRoundTrip.QuoteEndsAfter | packaging/emscripten/web/notebook-st.js:399-406 | The comment ends exactly after the doubled text, whatever quotes the text ends with |
| ChunkRoundTrip.CellChunkStarts | packaging/emscripten/web/notebook-st.js:455-462 | No cell is taken for a title or for blank |
| ChunkRoundTrip.CellsReadBack | packaging/emscripten/web/notebook-st.js:389-393 | The cells read are the normal forms of those printed, in order |
| ChunkRoundTrip.NormalCellStays | packaging/emscripten/web/notebook-st.js:379-384 | The normal form of a cell is its own normal form |
| ChunkRoundTrip.SecondTripKeepsCells | packaging/emscripten/web/notebook-st.js:386-473 | For every .st text, whoever wrote it: the cells read from it, printed and read again, are the same cells |
| ChunkRoundTrip.CellsReadAreNormal | packaging/emscripten/web/notebook-st.js:415-463 | Every cell read from any text is in normal form: trimmed, with unified line ends |
| ChunkRoundTrip.SecondTripKeepsTitle | packaging/emscripten/web/notebook-st.js:458 | A second trip keeps the title if and only if it is not empty and its cut did not leave white space at its end |
| ChunkRoundTrip.ATitleThatASecondTripChanges | packaging/emscripten/web/notebook-st.js:458 | A title of 199 letters, a space and a letter: the first trip cuts it after the space, the second drops the space |
| ChunkRoundTrip.TheCutCountsUnits | packaging/emscripten/web/notebook-st.js:458 | A title of 101 surrogate pairs is cut to 100 |
| ChunkRoundTrip.NormalTitleShape | packaging/emscripten/web/notebook-st.js:387 | A title read is one line, of at most 200 code units, without leading white space |
| ChunkText.TrimBlankLinesTrims | packaging/emscripten/web/notebook-st.js:379-384 | What is left has no leading blank line and no trailing white space |
| ChunkText.TrimmedStays | packaging/emscripten/web/notebook-st.js:379-384 | A trimmed source is not changed |
| ChunkText.UndoubledDoubled | packaging/emscripten/web/notebook-st.js:375 | Doubling the quotes is undone by halving them |
| ChunkText.DoubledConcat | packaging/emscripten/web/notebook-st.js:374-375 | Doubling distributes over concatenation |
| ChunkText.LinesOfEol | packaging/emscripten/web/notebook-st.js:376 | CR LF, CR and LF line ends are unified to the same text |
| ChunkText.JsTrim | packaging/emscripten/web/notebook-st.js:457 | No white space at either end is left |
| ChunkFormat.ToSt | packaging/emscripten/web/notebook-st.js:386-395 | The loop prints the text of the specification |
| ChunkFormat.IndexOf | packaging/emscripten/web/notebook-st.js:432 | The first occurrence from an index on, or -1 |
| ChunkFormat.SkipSpaces | packaging/emscripten/web/notebook-st.js:425 | Skips exactly the white space |
| ChunkFormat.ChunkFrom | packaging/emscripten/web/notebook-st.js:430-437 | The body up to the next single !, its doubled ones halved, and the index after it |
| ChunkFormat.Chunk | packaging/emscripten/web/notebook-st.js:428-438 | The same from the first character that is no separator |
| ChunkFormat.FindCommentEnd | packaging/emscripten/web/notebook-st.js:399-406 | The index after the closing quote, doubled ones skipped, or -1 |
| ChunkFormat.TrimmedBlankLines | packaging/emscripten/web/notebook-st.js:379-384 | The two index loops compute the trimmed source |
| ChunkFormat.SkipMethods | packaging/emscripten/web/notebook-st.js:449 | Counts the methods of a section up to an empty chunk |
| ChunkFormat.ReadPreamble | packaging/emscripten/web/notebook-st.js:444-452 | Reads a preamble and what belongs to it, counted for the warning |
| ChunkFormat.FromSt | packaging/emscripten/web/notebook-st.js:422-473 | The main loop reads what the specification reads: title, cells, and the warning that says what was left out |
| HighlighterProofs.HighlightAgreesWithScan | packaging/emscripten/web/notebook-st.js:229-340 | On any text, unterminated or not: at every token boundary of highlight scan stands between two steps with the same open brackets, and both find the same strings, comments and characters, with the same extents |
| HighlighterProofs.TokenIsFaithful | packaging/emscripten/web/notebook-st.js:262-338 | Each token is a run of whole scan steps from the same stack to the same stack, and contains no string, comment or character but the one it is colored as |
| HighlighterProofs.HashIsFaithful | packaging/emscripten/web/notebook-st.js:274-283 | A # token, ##( and #'...' included, pushes and ends as scan does |
| HighlighterProofs.NumberIsNeutral | packaging/emscripten/web/notebook-st.js:199-219 | A number, with radix, fraction, exponent and scale, has no character that scan acts on |
| HighlighterProofs.KeywordsAreNeutral | packaging/emscripten/web/notebook-st.js:249-261 | Names and keywords with their colons have none either |
| HighlighterProofs.LiteralArrayIsFaithful | packaging/emscripten/web/notebook-st.js:292-305 | In a literal array only ( and ) move the stack, in both |
| HighlighterProofs.ByteArrayIsFaithful | packaging/emscripten/web/notebook-st.js:288-291 | In a byte array only ] does, in both |
| HighlighterProofs.CodeIsFaithful | packaging/emscripten/web/notebook-st.js:306-337 | In code every other token is neutral or one bracket |
| HighlighterProofs.ReadingAgrees | packaging/emscripten/web/notebook-st.js:262-338 | The agreement from any two states at the same place with the same stack |
| HighlighterProofs.HighlightLosesNothing | packaging/emscripten/web/notebook-st.js:222-223 | The texts of the pieces add up to the source, no piece is empty, neighbours differ in kind, and every character has the color of its token |
| HighlighterProofs.PiecesHaveTheColorsOfTokens | packaging/emscripten/web/notebook-st.js:235-239 | Merging tokens of one kind into a piece changes no color |
| HighlightKinds.LiteralsAreTold | packaging/emscripten/web/notebook-st.js:262-291 | A token is a comment, a string or a character if and only if it begins with ", a quote or $; a number if and only if it begins with a digit, or with a - before one where no value stands in front or in an array |
| HighlightKinds.NamesAreTold | packaging/emscripten/web/notebook-st.js:249-261 | Of a name in code: a keyword if and only if it ends in a colon; special if and only if self, super or thisContext; constant if and only if nil, true or false; global if and only if capitalized and none of these |
| HighlightKinds.SignsAreTold | packaging/emscripten/web/notebook-st.js:306-337 | Of signs in code: := and ^ alone are special, brackets, . ; and | are told as brackets, and besides them only the < and > of a pragma |
| HighlightKinds.PragmasAreTold | packaging/emscripten/web/notebook-st.js:306-337 | Outside of all brackets a < is told as a bracket if and only if it begins a pragma, and a > if and only if one is open; so a pragma is open or not |
| HighlightKinds.DataIsTold | packaging/emscripten/web/notebook-st.js:292-305 | In a literal array all but nil, true and false is quoted |
| HighlightKinds.SymbolsAreTold | packaging/emscripten/web/notebook-st.js:274-283 | A # is quoted if and only if an array, a string, a name or a binary selector follows the # signs, and leaves a value but for an array, which it opens |
| HighlightKinds.SymbolsAreWhole | packaging/emscripten/web/notebook-st.js:274-283 | A symbol is one token to the end of its name with the colons, its selector or its string |
| HighlightKinds.DecimalNumbersAreWhole | packaging/emscripten/web/notebook-st.js:202-219 | A decimal number is one token, with its fraction and its exponent |
| HighlightKinds.RadixNumbersAreWhole | packaging/emscripten/web/notebook-st.js:203-207 | So is a number with a radix |
| HighlightKinds.AMinusBehindAValue | packaging/emscripten/web/notebook-st.js:284-287 | Behind a number, string, character, global or constant a - is no sign |
| HighlightKinds.AMinusBehindASign | packaging/emscripten/web/notebook-st.js:306-337 | Behind a keyword, an opening bracket, :=, ^, a full stop and a semicolon it may be one; behind a closing bracket not |
| HighlighterProofs.TextsJoin | packaging/emscripten/web/notebook-st.js:339 | The texts cut at the ends of the pieces add up |
| Highlighter.NextToken | packaging/emscripten/web/notebook-st.js:262-338 | Every token makes progress and ends inside the text |
| Highlighter.NumberEnd | packaging/emscripten/web/notebook-st.js:202-219 | A number ends after its first digit and inside the text |
| ScannerProofs.DepthIsWhatIsLeftOpen | packaging/emscripten/web/notebook-st.js:78-84 | The depth is the openers told less the closers told that are not stray; stray closers are listed exactly when there are some |
| ScannerMeaning.PlainCodeIsMatched | packaging/emscripten/web/notebook-st.js:85-145 | In code without quotes, $ and #: the brackets told are all brackets of the text, and what is left open, stray or mismatched is what matching them one by one leaves |
| ScannerMeaning.QuotedIsSilent | packaging/emscripten/web/notebook-st.js:91-98 | Nothing of a string or comment is told, whatever it holds with its quotes doubled; of a comment, where it ends |
| ScannerMeaning.ArraysAreData | packaging/emscripten/web/notebook-st.js:109-135 | In a literal array without inner ones brackets match nothing and nothing is amiss; in a byte array each bracket is one mismatch; only the opening and the closing one of the array are told |
| ScannerMeaning.CharactersAndSymbolsAreSilent | packaging/emscripten/web/notebook-st.js:103-123 | A $ takes the next character, a pair of surrogates whole, and a # its whole symbol; nothing of them is told |
| ScannerProofs.PendingClosersClose | packaging/emscripten/web/notebook-st.js:82-84 | A text with nothing unfinished is closed by its pending closers, none of them stray or mismatched, if and only if nothing is open or the text does not end in a $ and half a surrogate pair |
| ScannerProofs.PendingIsClosersReversed | packaging/emscripten/web/notebook-st.js:143 | pending lists the closers needed, innermost last |
| ScannerProofs.ScanStays | packaging/emscripten/web/notebook-st.js:85-145 | Closers after a text change nothing of how the text itself is scanned |
| ScannerProofs.HalfTakesACloser | packaging/emscripten/web/notebook-st.js:103-108 | The failing family: the first closer is taken into the character, and a bracket stays open |
| ScannerProofs.HalfAtTheEndIsNotClosed | packaging/emscripten/web/notebook-st.js:103-108 | One of that family: an open (, a $ and half a pair |
| ScannerProofs.ClosersClose | packaging/emscripten/web/notebook-st.js:124-141 | The closers of a stack, written innermost first, empty it |
| Scanner.Step | packaging/emscripten/web/notebook-st.js:89-142 | Each turn of the loop makes progress inside the text |
| Scanner.QuoteEnd | packaging/emscripten/web/notebook-st.js:91-98 | The end is a quote that is not doubled, or the end of the text |
| Scanner.RunEnd | packaging/emscripten/web/notebook-st.js:119-121 | The end of the longest run with the property |
| Scanner.FindRunEnd | packaging/emscripten/web/notebook-st.js:119-121 | The inner loop finds that end |
| Scanner.FindQuoteEnd | packaging/emscripten/web/notebook-st.js:92-98 | The inner loop finds the closing quote |
| Scanner.ScanText | packaging/emscripten/web/notebook-st.js:85-145 | The main loop with its stack, counts and events computes the state that the lemmas are about |
| HighlightLoops.FindDigits | packaging/emscripten/web/notebook-st.js:190-198 | The digits of a radix, single _ between them |
| HighlightLoops.FindIntegerPart | packaging/emscripten/web/notebook-st.js:203-207 | The integer part and its radix; a radix without digits is none |
| HighlightLoops.FindNumberEnd | packaging/emscripten/web/notebook-st.js:202-219 | The loops end where the specification says |
| HighlightLoops.FindKeywordsEnd | packaging/emscripten/web/notebook-st.js:251-261 | The same for names and keywords |
| HighlightLoops.ReadHash | packaging/emscripten/web/notebook-st.js:274-283 | The branches at a # |
| HighlightLoops.ReadInLiteralArray | packaging/emscripten/web/notebook-st.js:292-305 | The branches inside a literal array |
| HighlightLoops.ReadCode | packaging/emscripten/web/notebook-st.js:306-337 | The branches in code |
| HighlightLoops.ReadToken | packaging/emscripten/web/notebook-st.js:262-338 | The branches of the main loop, in order |
| HighlightLoops.Highlight | packaging/emscripten/web/notebook-st.js:231-340 | The main loop and its pieces, whose texts add up to the source |
| StraightQuotes.StraightenedTwice | packaging/emscripten/web/notebook-st.js:344-369 | Straightening a straightened text changes nothing |
| StraightQuotes.StraightenedIs | packaging/emscripten/web/notebook-st.js:344-369 | At every index, told from the answer alone: outside of strings and comments, and behind a $, no quote is curly any more; inside, the quote that closes is straight and all else stays as it was |
| StraightQuotes.OnlyQuotesChange | packaging/emscripten/web/notebook-st.js:361-366 | Only curly quotes change, each into the straight one of its kind (which do change is StraightenedIs) |
| StraightQuotes.StraightenQuotes | packaging/emscripten/web/notebook-st.js:351-369 | The loop computes the straightened text, of the same length |
| FrameMachine.EncodedFramesReadBack | packaging/emscripten/web/nb-kernel.js:164-252 | A stream of encoded frames delivers what each means, in order: events with their attachments, rejected ones and overlong lines reported and skipped |
| FrameMachine.DeliveriesAreSound | packaging/emscripten/web/nb-kernel.js:164-252 | Over every stream of bytes, broken or not: an event delivered with an attachment has exactly the bytes that it announced, within the limits, and an image those of its sides |
| FrameMachine.RejectedIffNotAcceptable | packaging/emscripten/web/nb-kernel.js:256-265 | An attachment is rejected if and only if its length is over the limit, or it is a raw image whose sides are not counts from 1 to 16384 with four bytes a pixel |
| FrameMachine.FrameReadsBack | packaging/emscripten/web/nb-kernel.js:228-252 | One encoded frame is read exactly, and the reader is ready for the next |
| FrameMachine.FeedPiece | packaging/emscripten/web/nb-kernel.js:198-211 | A piece of a line is kept, or dropped with one error once the line passes the limit |
| FrameMachine.FeedSkipped | packaging/emscripten/web/nb-kernel.js:168-174 | A rejected attachment is skipped by its length, nothing of it is read as events |
| FrameMachine.FeedAttached | packaging/emscripten/web/nb-kernel.js:175-182 | An attachment takes exactly its length |
| FrameMachine.FeedGarbage | packaging/emscripten/web/nb-kernel.js:191-195 | Anything but LF after an attachment is one error, and the reader is ready again after the next LF |
| FrameMachine.FeedData | packaging/emscripten/web/nb-kernel.js:235-251 | After a header the next bytes are its attachment, kept or skipped |
| FrameReader.Reader.constructor | packaging/emscripten/web/nb-kernel.js:142-154 | The reader begins ready |
| FrameReader.Reader.Reset | packaging/emscripten/web/nb-kernel.js:155-161 | The reader is ready again, what it delivered stays |
| FrameReader.Reader.Push | packaging/emscripten/web/nb-kernel.js:164-217 | Pushing a chunk does what feeding its bytes one at a time does, with the same output in order |
| FrameReader.Reader.SkipRejected | packaging/emscripten/web/nb-kernel.js:168-174 | The branch of a rejected attachment, as many bytes as the chunk has |
| FrameReader.Reader.TakeAttached | packaging/emscripten/web/nb-kernel.js:175-182 | The branch of an attachment, copied as far as the chunk goes |
| FrameReader.Reader.EndAttachment | packaging/emscripten/web/nb-kernel.js:183-197 | Delivers at the LF, or reports and resyncs |
| FrameReader.Reader.TakeLinePiece | packaging/emscripten/web/nb-kernel.js:198-215 | A piece of a line, up to the LF if the chunk has it |
| FrameReader.Reader.TakeLine | packaging/emscripten/web/nb-kernel.js:218-227 | The parts joined in order |
| FrameReader.Reader.HandleLine | packaging/emscripten/web/nb-kernel.js:228-252 | What a whole line does: an event, an attachment to come, or an error |
| FrameReader.PushAll | packaging/emscripten/web/nb-kernel.js:164-217 | However a stream is cut into pushes, the reader ends in the state, and has the deliveries, attachments and errors, that its bytes one at a time give |
| FrameReader.PushFrames | packaging/emscripten/web/nb-kernel.js:141-253 | Encoded frames that arrive in any pieces deliver what they mean, in order, and leave the reader ready |
| KernelFlight.CellFliesUntilItsEnd | packaging/emscripten/web/nb-kernel.js:414-893 | Over every run: a call in flight stays in flight, with its rid and its kernel, if and only if no event so far was one that ends it; otherwise it is done, and never in flight again |
| KernelOrder.CellsStartInTheirOrder | packaging/emscripten/web/nb-kernel.js:755-838 | Over every run: of two cells started, the one whose run() came first was started first, and all that wait came after all that were started |
| KernelOrder.RidsAreNew | packaging/emscripten/web/nb-kernel.js:758-759 | Over every run: no kernel is given a rid twice |
| KernelOrder.TheEndIsTold | packaging/emscripten/web/nb-kernel.js:674-753 | A cell whose kernel says how it ended is told so; one that a bad request or a second hello ends has failed |
| KernelOrder.AFailureCancelsTheRest | packaging/emscripten/web/nb-kernel.js:444-461 | With stopOnError a cell that failed cancels all that wait, with that reason, and none starts; otherwise one starts if one waits and may |
| KernelOrder.CancelRemovesThatCell | packaging/emscripten/web/nb-kernel.js:840-851 | cancel() takes exactly the entries of that cell from the queue, and each is told |
| KernelOrder.TheReasonIsTold | packaging/emscripten/web/nb-kernel.js:502-523 | By an exit, a crash, a kernel that is not to be had, the deadline, restart() or dispose(): the cell in flight and all that wait are told which, nothing is queued, the phase is that of the reason, and a kernel that starts counts from 0 |
| KernelEvents.NoEventIsLost | packaging/emscripten/web/nb-kernel.js:553-640 | Over every event while the kernel is the same: of the events that waited and those that came the first are handled in order up to a display whose conversion is not over, and exactly those behind it wait |
| KernelEvents.StopSetsOneDeadline | packaging/emscripten/web/nb-kernel.js:792-797 | stop() tells all that wait, and gives the cell in flight a deadline that no later stop() moves |
| KernelEvents.OutputBuysTime | packaging/emscripten/web/nb-kernel.js:798 | Output puts the deadline of a stopped cell off to the watchdog time from then, never past the cap, never to an earlier time |
| KernelEvents.AKernelComesUp | packaging/emscripten/web/nb-kernel.js:824-838 | A run() of a fresh client, a spawn, a ready and a hello come to the cell in flight under rid 1 |
| KernelEvents.ACellRunsThrough | packaging/emscripten/web/nb-kernel.js:674-753 | From there a start, a wait for input and a done come to one queued, one started and one done in the log, and an idle kernel |
| KernelFlight.CellEndsExactly | packaging/emscripten/web/nb-kernel.js:414-893 | Over every event, call, message, timer and settled promise: the cell in flight stays so, with its rid, if and only if the event is none of those listed that end it; otherwise it is done |
| KernelFlight.OnlyAnEnderOrTheKernelGoing | packaging/emscripten/web/nb-kernel.js:674-753 | Only a done with the rid in flight, a bad request or a hello among the events at hand, or the kernel going away, ends a cell: no run, cancel, stop, text, state, timer, settled spawn or done of another rid |
| KernelFlight.OnlyItsOwnEndEndsACell | packaging/emscripten/web/nb-kernel.js:674-753 | Of the events that the kernel sends, one ends the cell in flight if and only if it is a done of its rid, a bad request before its start, or a hello |
| KernelFlight.EarlierGenerationsChangeNothing | packaging/emscripten/web/nb-kernel.js:483-500 | Over every run: with all messages, settled spawns and held events of earlier generations taken out, the client does the same and ends the same |
| KernelProofs.EveryRunSettlesOnce | packaging/emscripten/web/nb-kernel.js:414-461 | Over any order of calls, worker messages, exits and crashes: every run() is exactly one of queued, in flight, done once or cancelled once |
| KernelProofs.DisposedHasSettledAll | packaging/emscripten/web/nb-kernel.js:885-893 | After dispose every run() has settled, once |
| KernelProofs.QueuedCellsAreServed | packaging/emscripten/web/nb-kernel.js:755-765 | Queued cells are never left behind: one is in flight or a kernel is starting |
| KernelProofs.DeadlineIsCapped | packaging/emscripten/web/nb-kernel.js:789-805 | With watchdogMs at most watchdogCapMs an armed deadline is between the Stop plus watchdogMs and the Stop plus the cap |
| KernelProofs.StopMeetsTheCap | packaging/emscripten/web/nb-kernel.js:792-797 | The deadline that a Stop sets respects the cap if and only if watchdogMs is at most watchdogCapMs |
| KernelProofs.ApplyKeepsInv | packaging/emscripten/web/nb-kernel.js:414-893 | Every call, message, timer and settled promise keeps the invariant |
| KernelProofs.RunKeepsInv | packaging/emscripten/web/nb-kernel.js:414-893 | The same over whole runs |
| KernelProofs.FinishBalances | packaging/emscripten/web/nb-kernel.js:444-461 | Ending the cell in flight settles exactly that one, and on a failed cell the queue |
| KernelProofs.CancelQueueBalances | packaging/emscripten/web/nb-kernel.js:431-440 | Cancelling the queue settles exactly the queued ones |
| KernelProofs.CancelBalances | packaging/emscripten/web/nb-kernel.js:840-851 | Cancelling the cells of an id settles exactly those |
| KernelProofs.PumpBalances | packaging/emscripten/web/nb-kernel.js:755-765 | Starting a cell moves the first of the queue into flight, its ticket after all started before and before all that wait, under a new rid |
| KernelClient.NotebookKernel.CallStart | packaging/emscripten/web/nb-kernel.js:818-823 | The invariant of the client is kept, and its fields and what its callers were told are those of the machine that the run lemmas are about, after start() |
| KernelClient.NotebookKernel.CallRun | packaging/emscripten/web/nb-kernel.js:824-838 | The invariant of the client is kept, and its fields and what its callers were told are those of the machine that the run lemmas are about, after run(), a disposed client cancelling at once |
| KernelClient.NotebookKernel.CallCancel | packaging/emscripten/web/nb-kernel.js:840-851 | The invariant of the client is kept, and its fields and what its callers were told are those of the machine that the run lemmas are about, after cancel() |
| KernelClient.NotebookKernel.CallStop | packaging/emscripten/web/nb-kernel.js:852-858 | The invariant of the client is kept, and its fields and what its callers were told are those of the machine that the run lemmas are about, after stop() |
| KernelClient.NotebookKernel.CallRestart | packaging/emscripten/web/nb-kernel.js:859-867 | The invariant of the client is kept, and its fields and what its callers were told are those of the machine that the run lemmas are about, after restart() |
| KernelClient.NotebookKernel.CallDispose | packaging/emscripten/web/nb-kernel.js:885-893 | The invariant of the client is kept, and its fields and what its callers were told are those of the machine that the run lemmas are about, after dispose() |
| KernelClient.NotebookKernel.SpawnSettles | packaging/emscripten/web/nb-kernel.js:478-498 | The invariant of the client is kept, and its fields and what its callers were told are those of the machine that the run lemmas are about, after the promise of a spawn |
| KernelClient.NotebookKernel.Receive | packaging/emscripten/web/nb-kernel.js:525-533 | The invariant of the client is kept, and its fields and what its callers were told are those of the machine that the run lemmas are about, after a message of a worker |
| KernelClient.NotebookKernel.ConversionSettles | packaging/emscripten/web/nb-kernel.js:634-637 | The invariant of the client is kept, and its fields and what its callers were told are those of the machine that the run lemmas are about, after the end of a conversion that held the rest |
| KernelClient.NotebookKernel.TimerFires | packaging/emscripten/web/nb-kernel.js:799-805 | The invariant of the client is kept, and its fields and what its callers were told are those of the machine that the run lemmas are about, after the watchdog timer |
| KernelClient.NotebookKernel.CancelQueue | packaging/emscripten/web/nb-kernel.js:431-440 | The loop cancels each queued cell, in order, and leaves the queue empty |
| KernelClient.NotebookKernel.Events | packaging/emscripten/web/nb-kernel.js:628-640 | The loop handles the events of an output, until one is held by a conversion |
| KernelClient.NotebookKernel.Drain | packaging/emscripten/web/nb-kernel.js:553-565 | The loop runs the messages in order, until one holds the rest |
| KernelClient.NotebookKernel.RemoveQueued | packaging/emscripten/web/nb-kernel.js:840-849 | The entries of the cell are cancelled in order, the others stay in order |
| TidyLimits.AnswersAreWellNested | packaging/emscripten/web/notebook-lib.js:983-1354 | For any tokens and name sets, the text answered, read by its characters alone: its tags are well nested up to those left open, nowhere more than 65 deep, and what stands between them is what is shown of the texts, escaped, in order |
| TidyProofs.WritesWellNested | packaging/emscripten/web/notebook-lib.js:983-1245 | For any tokens and name sets: what is written, read by a reader that knows only <, </, />, >, quotes, names and the empty comment, is well nested; the tags left open are exactly the shown open elements in order; between the tags stand exactly the texts that are not hidden, each escaped |
| TidyReader.PrefixIsWellNested | packaging/emscripten/web/notebook-lib.js:1013-1021 | So reads every prefix of a text that can be read, nowhere deeper than 65 |
| TidyReader.EscapedSaysTheSame | packaging/emscripten/web/notebook-lib.js:1243 | A text with its < written as &lt; holds no <, and is the text again once these are read back; what was &lt; before stays as it was meant |
| TidyReader.StartReads | packaging/emscripten/web/notebook-lib.js:1094 | A start tag with a plain name and attributes closed in quotes opens exactly that name |
| TidyReader.EndReads | packaging/emscripten/web/notebook-lib.js:1106 | An end tag closes the innermost open name, and cannot be read where another is open |
| TidyReader.AttributesRead | packaging/emscripten/web/notebook-lib.js:1043 | Attributes that are closed in quotes are passed over, whatever stands in their values |
| TidyProofs.AttributesAreWrittenOnce | packaging/emscripten/web/notebook-lib.js:1033-1044 | No attribute is written twice, and no more than 256 |
| TidyProofs.AttributesHaveTheirFirstValue | packaging/emscripten/web/notebook-lib.js:1033-1044 | Each has the value of its first occurrence in the tag, dir under its other name |
| TidyProofs.NoAttributeIsLeftOut | packaging/emscripten/web/notebook-lib.js:1033-1044 | Every attribute that may be kept is written, as long as there are no more than 256 |
| TidyLimits.NothingStandsWhereItMayNot | packaging/emscripten/web/notebook-lib.js:1136-1195 | With the name sets of HTML, at every token: no block stands inside of a paragraph in button scope, no button inside of a button in scope, and only formatting elements wait to be reopened |
| TidyTags.AStartTagOpens | packaging/emscripten/web/notebook-lib.js:1165-1211 | A start tag opens an element of its name with the attributes kept, on top of what it leaves open; a void one is written and opens nothing |
| TidyTags.AnEndTagCloses | packaging/emscripten/web/notebook-lib.js:1212-1238 | An end tag closes the innermost element of its name with all in it when that is in scope, and does nothing when it is not |
| TidyCloses.AStartTagCloses | packaging/emscripten/web/notebook-lib.js:1181-1196 | Before it opens an element a start tag closes, from the top only, all that its name ends: the item before an item, the paragraph around a block, the heading around a heading, the table without a cell around a table, the button around a button, the option before an option; with nothing of these it closes nothing |
| TidyCloses.ImpliedEndsAreClosed | packaging/emscripten/web/notebook-lib.js:1197-1200 | What a part of a ruby closes before it: from the top only, every element whose end tag may be left out, down to the first that is none |
| TidyCloses.ATablePartStandsWhereItBelongs | packaging/emscripten/web/notebook-lib.js:1150-1164 | A part of a table is opened straight inside of what it belongs in: a cell in the row, else the section, else the table; a row in the section, else the table; all others in the table; what was open below stays |
| TidyCloses.OwnEndsClose | packaging/emscripten/web/notebook-lib.js:1232-1233 | </li> closes the item in list scope, the end tag of any heading the innermost heading in scope; otherwise they do nothing |
| TidyTags.HtmlInSvgIsHidden | packaging/emscripten/web/notebook-lib.js:1086-1093 | An element of HTML straight inside of one of SVG is not written, and all in it is hidden |
| TidyTags.WhatMayBecomeAReference | packaging/emscripten/web/notebook-lib.js:1244 | A text could if and only if it has a & with only letters, digits and # behind it |
| TidyTags.AFormattingEndReopens | packaging/emscripten/web/notebook-lib.js:1140-1149 | The end tag of a formatting element, misnested or not, closes it; the formatting elements closed with it wait to be opened again, outermost first |
| TidyTags.AFormattingEndAcross | packaging/emscripten/web/notebook-lib.js:1140-1149 | Its other cases: out of scope it does nothing; across a special element it leaves its element open, marked, and changes nothing else; for one that waits to be reopened, the last of the name waits no more |
| TidyTags.AForeignTagOpens | packaging/emscripten/web/notebook-lib.js:1166-1175 | In SVG and MathML a start tag opens an element of its namespace, unless it breaks out or closes itself |
| TidyProofs.StepKeeps | packaging/emscripten/web/notebook-lib.js:1165-1245 | Every token keeps that, the text read so far included |
| TidyProofs.StepsKeep | packaging/emscripten/web/notebook-lib.js:1165-1245 | So does every sequence of tokens, from any such state |
| TidyProofs.OpenKeeps | packaging/emscripten/web/notebook-lib.js:1090-1101 | Opening writes what reads as a start tag exactly when the element is shown |
| TidyProofs.CloseKeeps | packaging/emscripten/web/notebook-lib.js:1102-1110 | Closing writes what reads as the end tag of the innermost open name exactly when its start tag was written |
| TidyProofs.LeafKeeps | packaging/emscripten/web/notebook-lib.js:1089 | A void element is written only where one more would be shown |
| TidyProofs.EndFormattingKeeps | packaging/emscripten/web/notebook-lib.js:1140-1149 | An end tag of a formatting element, leaving a zombie or not, keeps the nesting |
| TidyProofs.TablePartKeeps | packaging/emscripten/web/notebook-lib.js:1150-1164 | So does a part of a table |
| TidyProofs.CloseDownKeepsFormatting | packaging/emscripten/web/notebook-lib.js:1114-1121 | What waits to be reopened after closing down to an element is exactly the formatting elements above it that are no zombies, outermost first |
| TidyProofs.ClosingAMarkerRestores | packaging/emscripten/web/notebook-lib.js:1108 | Closing down to a marker restores the pending elements saved with it |
| TidyProofs.MarkerBracketsPending | packaging/emscripten/web/notebook-lib.js:1100-1108 | A marker hides the pending elements while it is open, and they are back when it is closed |
| TidyProofs.NoZombieOnTop | packaging/emscripten/web/notebook-lib.js:1122 | No zombie is left on top |
| TidyProofs.DropAtIsLowest | packaging/emscripten/web/notebook-lib.js:1007-1011 | dropAt is an element that is dropped, and none below it is; it is -1 exactly when none is |
| TidyLimits.AnswersAreWithinLimits | packaging/emscripten/web/notebook-lib.js:1013-1021 | Where tidyHtml throws it throws whatever tokens follow: tokens have an answer only if all that they begin with have one, no longer than it; the answer has at most maxOut UTF-16 code units, and at no token is the stack above maxNest |
| TidyLimits.StepsGo | packaging/emscripten/web/notebook-lib.js:1090-1093 | From any state and for any tokens no failure is forgotten, the length kept is that of the pieces written in UTF-16 code units and never shrinks, and the limits hold as long as nothing failed |
| HtmlTidier.IndicesMarkedAreExact | packaging/emscripten/web/notebook-lib.js:998-1001 | The index list of a scope is exactly the increasing indices of the elements that bound it, and its last is the one a search finds |
| HtmlTidier.IndicesAtAreExact | packaging/emscripten/web/notebook-lib.js:997-1002 | The same for the list of a name |
| HtmlTidier.PushIsExact | packaging/emscripten/web/notebook-lib.js:1096-1099 | Pushing an element keeps every list exact |
| HtmlTidier.PopIsExact | packaging/emscripten/web/notebook-lib.js:1103-1105 | Popping one does |
| HtmlTidier.IndicesMarkedIff | packaging/emscripten/web/notebook-lib.js:998-1001 | An index is in the list of a scope if and only if the element there bounds it |
| HtmlTidier.IndicesAtIff | packaging/emscripten/web/notebook-lib.js:997-1002 | An index is in the list of a name if and only if the element there has it |
| HtmlTidier.LastOfMarked | packaging/emscripten/web/notebook-lib.js:1001 | The last of a list is what a search from the top finds |
| HtmlTidier.ZombieKeepsPlaces | packaging/emscripten/web/notebook-lib.js:1144 | Marking a zombie does, and drops nothing |
| HtmlTidier.Tidier.constructor | packaging/emscripten/web/notebook-lib.js:991-1010 | The empty stack with empty lists |
| HtmlTidier.Tidier.LastIndex | packaging/emscripten/web/notebook-lib.js:1002 | The last list entry is what searching the stack finds |
| HtmlTidier.Tidier.LastMark | packaging/emscripten/web/notebook-lib.js:1001 | The same for a scope |
| HtmlTidier.Tidier.IsHidden | packaging/emscripten/web/notebook-lib.js:1011 | dropAt and the depth tell what the stack would |
| HtmlTidier.Tidier.IsInScope | packaging/emscripten/web/notebook-lib.js:1135 | The lists tell what the stack would |
| HtmlTidier.Tidier.Write | packaging/emscripten/web/notebook-lib.js:1013-1021 | Counts the work, writes what is not hidden, and fails past a limit |
| HtmlTidier.Tidier.Leaf | packaging/emscripten/web/notebook-lib.js:1089 | A void element |
| HtmlTidier.Tidier.Push | packaging/emscripten/web/notebook-lib.js:1095-1099 | On the stack and in exactly its lists |
| HtmlTidier.Tidier.Pop | packaging/emscripten/web/notebook-lib.js:1103-1105 | Off the stack and off exactly its lists |
| HtmlTidier.Tidier.Open | packaging/emscripten/web/notebook-lib.js:1090-1101 | The lists and dropAt stay exact |
| HtmlTidier.Tidier.Close | packaging/emscripten/web/notebook-lib.js:1102-1110 | The lists and dropAt stay exact; what it writes is what CloseKeeps reads as an end tag |
| HtmlTidier.Tidier.PopTo | packaging/emscripten/web/notebook-lib.js:1114-1123 | The two loops do what the plain machine does |
| HtmlTidier.Tidier.Reopen | packaging/emscripten/web/notebook-lib.js:1124-1129 | The pending elements are opened, in order |
| HtmlTidier.Tidier.DropPending | packaging/emscripten/web/notebook-lib.js:1130-1134 | The last pending one of the name goes |
| HtmlTidier.Tidier.PopIfInScope | packaging/emscripten/web/notebook-lib.js:1135-1137 | Closes only within the scope |
| HtmlTidier.Tidier.EndFormatting | packaging/emscripten/web/notebook-lib.js:1140-1149 | Every branch, the zombie included |
| HtmlTidier.Tidier.TablePart | packaging/emscripten/web/notebook-lib.js:1150-1164 | Every branch |
| HtmlTidier.Tidier.TableDepth | packaging/emscripten/web/notebook-lib.js:1153-1162 | How far to close, from the index lists |
| HtmlTidier.Tidier.CloseImplied | packaging/emscripten/web/notebook-lib.js:1197-1200 | The loop over the implied end tags |
| HtmlTidier.Tidier.CloseItems | packaging/emscripten/web/notebook-lib.js:1181-1185 | The items and the paragraph that a start tag closes |
| HtmlTidier.Tidier.CloseTable | packaging/emscripten/web/notebook-lib.js:1187-1191 | The table that a table closes |
| HtmlTidier.Tidier.CloseBlocks | packaging/emscripten/web/notebook-lib.js:1181-1192 | What a start tag closes, up to button |
| HtmlTidier.Tidier.CloseInlines | packaging/emscripten/web/notebook-lib.js:1193-1200 | What it closes, from a on |
| HtmlTidier.Tidier.HtmlStart | packaging/emscripten/web/notebook-lib.js:1176-1210 | A start tag in HTML |
| HtmlTidier.Tidier.StartTag | packaging/emscripten/web/notebook-lib.js:1165-1211 | Any start tag, foreign content included |
| HtmlTidier.Tidier.HtmlEnd | packaging/emscripten/web/notebook-lib.js:1220-1237 | An end tag in HTML |
| HtmlTidier.Tidier.EndTag | packaging/emscripten/web/notebook-lib.js:1212-1238 | Any end tag |
| HtmlTidier.Tidier.CharacterData | packaging/emscripten/web/notebook-lib.js:1239-1244 | Text, with the empty comment after a possible reference |
| HtmlTidier.Tidier.Run | packaging/emscripten/web/notebook-lib.js:983-1245 | Any sequence of tokens: what the index-keeping machine writes is what the plain one writes, and its lists stay exact |
| HtmlTidier.AttrsOf | packaging/emscripten/web/notebook-lib.js:1026-1045 | The loop over the attributes keeps those that the specification keeps, in order, each escaped |
| HtmlTidier.TidyHtml | packaging/emscripten/web/notebook-lib.js:983-1354 | For any tokens: the text that the plain machine writes, which AnswersAreWellNested reads, or none where a limit is passed and the source throws |
| FfiAdapt.AdaptedCallKeepsTheArguments | src/emscripten/ffiAdapt.c:322-347 | In an adapted call every fixed argument has the class of C; each declared integer arrives as the same integer (C j) or one equal modulo 2^32 (C i); equal classes and variable arguments pass untouched |
| FfiAdapt.ArgumentKeepsItsValue | src/emscripten/ffiAdapt.c:333-347 | The same for one argument |
| FfiAdapt.ResultIsAsDeclared | src/emscripten/ffiAdapt.c:376-398 | The result written is the answer as declared: truncated then extended for a narrow type, sign-extended for an int64, zero-extended from 32 bits for a uint64 or a handle, 0 for none |
| FfiAdapt.ExtendAsIsTheCast | src/emscripten/ffiAdapt.c:193-210 | The one integer of the type that agrees with the value in its low bits |
| FfiAdapt.AdaptedIff | src/emscripten/ffiAdapt.c:248-317 | For every declaration and every text of a signature: the call is adapted if and only if the numbers of arguments fit, each declared type is one that its letter can be of, and the width of an argument, the result, or the place where the variable arguments begin differs |
| FfiAdapt.TheLettersSayTheWidths | src/emscripten/ffiAdapt.c:322-347 | Letter by letter: j is 64 bits, and the integer arrives as declared; i is at most 32, and it agrees in 32 bits; f a float; d a double |
| FfiAdapt.TheFirstLetterIsTheResult | src/emscripten/ffiAdapt.c:376-398 | The first letter is of what C answers: 64 bits for a j, the low 32 for an i, nothing for a v |
| FfiAdapt.TheDotSaysHowManyAreFixed | src/emscripten/ffiAdapt.c:290-293 | Without a dot all arguments are fixed; the decimal number behind a dot says how many are |
| FfiAdapt.WidenKeepsTheValue | src/emscripten/ffiAdapt.c:213-224 | Reading a narrow argument back gives the integer that was stored |
| FfiAdapt.NarrowKeepsTheLowBits | src/emscripten/ffiAdapt.c:338-341 | A 64-bit argument narrowed keeps its low 32 bits |
| FfiAdapt.MixedClassesAreNotAdapted | src/emscripten/ffiAdapt.c:248-256 | An integer where C has a floating-point number, or the reverse, in an argument or in the result, is never adapted |
| FfiAdapt.Decide | src/emscripten/ffiAdapt.c:276-317 | The loops decide exactly: adapted if and only if the declaration fits the signature in number and class up to i and j, and differs from it |
| FfiAdapt.CallAdapted | src/emscripten/ffiAdapt.c:265-398 | For the signature text that the registry has, if any: one call at most is made, with the adapted types and values, and its result written; a call that needs none goes through as declared; one that libffi cannot prepare fails when variadic |
| HeapMap.IndicesMakeTheAddress | src/common/sqHeapMap.c:131-134 | The directory, page, byte and bit index of an aligned address give it back, each within its table |
| HeapMap.IndicesAreInjective | src/common/sqHeapMap.c:131-134 | Two words never share a bit |
| HeapMap.RootCoversExactly | src/common/sqHeapMap.c:107-119 | The root table has an entry for an address if and only if it is below 2^61 |
| HeapMap.BitsAreSeparate | src/common/sqHeapMap.c:180-183 | Setting or clearing one bit of a byte leaves the other seven |
| HeapMap.Map.constructor | src/common/sqHeapMap.c:119 | No word is set |
| HeapMap.Map.AtWord | src/common/sqHeapMap.c:140-152 | Non-zero exactly for the words that are set; misaligned words are refused; from 2^61 on the root index is outside its table |
| HeapMap.Map.DirectoryOf | src/common/sqHeapMap.c:164-171 | A directory is allocated when there is none, no page changes |
| HeapMap.Map.PageOf | src/common/sqHeapMap.c:172-179 | A page of zeros is allocated when there is none, no other page changes |
| HeapMap.Map.Reach | src/common/sqHeapMap.c:164-179 | Allocating changes no bit |
| HeapMap.Map.PutBit | src/common/sqHeapMap.c:180-183 | Exactly one bit changes |
| HeapMap.Map.AtWordPut | src/common/sqHeapMap.c:158-184 | Exactly that word is put in or taken out of the set; misaligned words, and those outside the root table, are not |
| HeapMap.Map.Clear | src/common/sqHeapMap.c:190-200 | The set is empty, the pages stay |
| HeapMap.Map.ClearDirectory | src/common/sqHeapMap.c:196-199 | All pages of a directory are zero |
| SafeQueue.TakesArePrefixOfPuts | src/threadSafeQueue/threadSafeQueue.c:89-143 | Over every interleaving, whatever the semaphore does: takes are a prefix of puts in linking order, no element is lost or answered twice; with a platform semaphore no take past its wait finds the queue empty |
| SafeQueue.RunKeepsInv | src/threadSafeQueue/threadSafeQueue.c:89-143 | One thread at most holds the mutex; the length is the semaphore value plus consumers past their wait plus producers not yet signalling |
| SafeQueue.StepBalances | src/threadSafeQueue/threadSafeQueue.c:94-142 | Every step keeps that sum |
| SafeQueue.StepExcludes | src/threadSafeQueue/threadSafeQueue.c:94-140 | Every step keeps the exclusion |
| SafeQueue.StepKeepsOrder | src/threadSafeQueue/threadSafeQueue.c:95-137 | Every step keeps the order, with either kind of semaphore |
| SafeQueue.StepDelivers | src/threadSafeQueue/threadSafeQueue.c:127-142 | Every element unlinked is answered or in the hand of one take |
| SafeQueue.NobodyWaitsForNothing | src/threadSafeQueue/threadSafeQueue.c:104-116 | With every thread idle or waiting, a waiting consumer can go on if and only if the queue has an element |
| SafeQueue.AMissFindsAllTaken | src/threadSafeQueue/threadSafeQueue.c:121-142 | Over every run, with either kind of semaphore: the takes that returned nothing, and those about to, are as many as the moments at which a take under the mutex found the queue empty when all that any thread had put was taken; with a platform semaphore no take returns nothing |
| SafeQueue.List.Link | src/threadSafeQueue/threadSafeQueue.c:95-101 | The element is last |
| SafeQueue.List.Unlink | src/threadSafeQueue/threadSafeQueue.c:127-137 | The first element leaves, or there is none |
| SafeQueue.List.Size | src/threadSafeQueue/threadSafeQueue.c:71-82 | The loop counts the elements |

## Left out

- Foreign calls: `epoll`, `mmap`, `sbrk` itself, libffi and the platform semaphores are inputs or steps of the environment; what they answer is arbitrary within their documented contract.
- Weak memory: the steps of the thread models are sequentially consistent, as the fences and the mutex make them. Signal masks are not modelled, nor a signal handler that interrupts the thread that holds the mutex.
- Wrap-around: request counters, handle counts and address arithmetic are unbounded; sizes are far below 2^63.
- The allocator: logging and the parsing of the environment; the configured base is a parameter, checked as the code checks it, its power-of-two test by halving. `sbrk` grants a break exactly up to a limit that the host may change between calls.
- `ioSetMaxExtSemTableSize` after start-up, which its own comment says can lose requests.
- ExternalSemaphores.NoLostWakeUp: excuses also a signaller that has read `isPooling` and not written yet, because the write is one step later; TheWriteMayStillBeToCome shows that this excuse is needed.
- ExternalSemaphores.NoSignalLostOrInvented: holds for indices below the size a pass is given; the others are the subject of ForgottenIffBeyondScannedSize.
- The dispatch: the kernel's readiness is arbitrary, an event names any descriptor in the list when the poll begins; allocation failures, and other threads that change the list during the wait, are not modelled.
- `aioInit`, SIGIO set-up and logging of the descriptors; `epoll_create1` failing, in which case no descriptor is reported.
- AioDescriptors.Descriptors.Ask: one answer of `epoll_ctl` for an fd and a mask within a turn.
- The handle table: `count` is never below the number of stored handles, and is not claimed equal to it, because adding a handle again counts it again.
- The classes of characters above ASCII, and where a pragma begins, are parameters of the scanners: nothing proved depends on them. A letter above ASCII is a word character.
- Scanner.ScanText: the callback is a log of its events; strings and comments that end with the text end at its length.
- JSON, text decoding, PNG and base64 conversion in the kernel client: a parser is a parameter of the frame reader, a conversion a promise that settles later. The wording of errors is not modelled.
- The events that only tell a cell something (display, stream, clear, late output, input) change no state of the kernel client and are not in its log.
- Callbacks that call the client again, `stopBackground`, `writeFile` and the git proxy.
- KernelProofs.QueuedCellsAreServed: says that a kernel runs or is starting, not that a kernel ends its cell.
- The tokenizer and the name sets of `tidyHtml`: tokens are arbitrary, and the sets, those of the attribute filter included, are parameters, so what is proved holds for all of them; the names that may be written hold no space, quote, `<`, `>`, `/` or `!`.
- TidyLimits.NothingStandsWhereItMayNot: of the rules by which a browser parses, those about paragraphs and buttons; that it parses the whole result as the source is no claim.
- HtmlTidier.Tidier.Write: a limit that is passed sets a flag where the source throws; HtmlTidier.TidyHtml answers None then, and TidyLimits.AnswersAreWithinLimits shows that the flag stays, but the machine goes on until the tokens end.
- FfiAdapt.CallAdapted: the lookup of a function's signature in the registry by its address, the environment variable and the traces are parameters or left out; floating-point values pass untouched.
- HeapMap.Map.AtWordPut: for an address from 2^61 on it answers that the index is outside the root table; what the C code reads or writes there is undefined. A failing `malloc`, which ends the program, is not modelled. The 32-bit variant is left out.
- SafeQueue: freeing the queue, and the memory of the nodes.
- The interpreter itself, FFI primitives, plugins, paths and parameters, debug output, file dialogs, the other pages of the web interface, the git transport and the asynchronous I/O of other platforms, which would add no harder property.
