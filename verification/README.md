# Locks, scattered buffers and display hand-over in a Mali graphics stack

This project models five pieces of the kernel-side drivers for Mali GPUs on Allwinner boards, and
proves what they promise.

**The UMP lock** is a re-entrant lock service between processes, over two fixed tables: items keyed by
a secure id, each with one reference slot per process, and a list of client processes.  One mutex guards
the tables; callers wait on a semaphore per item after dropping it.  `UmplockTables` says what each
mutex-protected section does to the tables, `UmplockDriver` has the driver's calls as methods over the
arrays they update, each tied to that specification, and `UmplockProtocol` is the state machine in which
any number of threads of any number of processes interleave: booking, waiting, being interrupted, writing
the owner, releasing, opening, and closing step by step.  Table sizes are parameters.  Results for all
runs are in `UmplockTheorems` and `UmplockLastClose`; `UmplockClosing` says when a close ends and ties the
interleaved close to the uninterrupted deletion; `UmplockDisorder` and `UmplockTraces` show what happens
when the assumptions fail; `UmplockAnswers` says what the calls answer in terms of references and owners.

The assumptions on runs are written in `UmplockProtocol.Enabled`:

- a process opens the device once and closes it while it has no call in flight;
- nobody uses the ZAP call, and reaching zero sessions and the zap that follows are one step;
- a process releases only what one of its threads acquired;
- with the flag `orderly`, a process moreover does not release an id at a moment when another of its threads
  is in a PROCESS call on that id, and then it may also make releases that find nothing to release.
  Any number of threads may be in PROCESS calls at once, on the same id or on others.

The counting results and the conditions on which a close ends hold with and without `orderly`; exclusion,
permits, a last close that leaves no owner behind, and a close that always ends when left alone need it.
`UmplockTheorems.ReleaseKeepsPermitIff` shows that the flag leaves out exactly the releases that would make
a second permit, and `UmplockDisorder.AnyClientBreaksExclusion` that every one of them can be continued until
two processes hold the same id, as soon as another client has the device open.

**Scattered buffers** are built from power-of-two page blocks, recorded in a scatter list, looked up on
page faults, mapped in bulk, and freed by recomputing each block's order from its length (`GemOrders`,
`GemPages`, `GemRequests`, `GemBuffers`, `GemMapping`, `GemDumb`).  Page allocations succeed or fail in any pattern.
Machine words of 32 and 64 bits are modelled with their wrap-around.  The h3 driver has the same code;
it is modelled once.

**The frame latch** (`LatchProtocol`, `LatchDriver`) is the protocol between commits that write a register
cache under a spin lock and the vsync handler, which copies the cache to the hardware if it gets the lock
in a bounded number of attempts.  Counters are words of any size above one.

**Mode and controller assignment** (`FbdevConfig`) is the initial configuration of the console, on the
64-bit branch of the aspect comparison.

**Pending flips** (`FlipProtocol`, `FlipDriver`) is the h3 accounting of page flips and their events.

## What the proofs found

- A closing process can spin for ever: between its last release and its look at the saved slot another
  process can take the slot over, and every further release is refused (`UmplockTraces.CloserMaySpin`).
  On any run, its own steps lead from inside the walk to the end of the close if and only if the saved slot is
  empty or its own and it owns every item in which it has a slot (`UmplockClosing.ClosesAloneIff`).
- A close that nobody interleaves with ends if and only if the process owns every item in which it has a slot
  (`UmplockClosing.CloseEndsIff`).  On orderly runs it always does (`UmplockClosing.CloserOwns`,
  `UmplockClosing.CloseUndisturbed`); on others it may not (`UmplockTraces.CloseMayNeverEnd`).  However it
  ends, it leaves exactly the tables of the deletion (`UmplockClosing.ClosesAsDeleted`).
- The deletion loop ends if and only if the process owns the item (`UmplockTheorems.DrainEndsIffOwner`).
- An interrupted wait can free an item whose owner field still names a process
  (`UmplockTraces.FreedItemMayKeepOwner`): exactly when it gives up the last reference of an owned item
  (`UmplockTheorems.InterruptedFreesOwnedIff`).  On orderly runs that does not happen.
- The zap of the last close changes nothing that a later run could tell
  (`UmplockLastClose.ZapIsInvisible`): the tables are already empty (`UmplockLastClose.LastCloseLeavesNothing`).
- When a page_info record cannot be allocated, exactly the page block just obtained is lost, and every
  failing exit keeps the records of the listed blocks (`GemBuffers.GemBuffer.NocontigBufAlloc`).
- Every pixel of a dumb buffer has a page exactly when the true size is positive, below 2^32, and still
  fits the word after alignment (`GemDumb.PixelsResolve`).
- A buffer whose page requests are all granted takes at most one block per one-bit of its page count, and beyond the
  largest block one more for each half of it, since the wrapped difference makes the code ask for halves
  (`GemBuffers.GemBuffer.NocontigBufAlloc`, `GemBuffers.MostIsHalfBlocksAndBits`).
- A handler that is told zero remaining lines skips the lock, can latch part of a commit
  (`LatchProtocol.HalfLatched`), and unlocks all the same; in the middle of a commit a later vsync gets the lock
  if and only if the handler has unlocked since the commit began (`LatchProtocol.LockOpenIff`).  With no commit
  going on a latch shows whole commits; inside a commit of n writes, k of them done, it does so whatever is
  written, with the lock or without, if and only if k is 0 or n (`LatchProtocol.LatchInsideCommitIff`).
- A power-off while unused resets two frame counters, and keeps the frame accounting if and only if both
  were zero (`LatchProtocol.PowerOffAccounting`).
- A mode set resets the four counters one store at a time while the handler can run.  The accounting starts
  again from zero whatever the handler does between the stores, if and only if the committers' counter was
  zero before and the handler's too, or the handler is inside the vsync that latches the one frame that
  wrapped the committers' counter to zero (`LatchProtocol.ResetIff`).
- A vsync between queueing a flip and its failure drives the pending count below zero
  (`FlipProtocol.OvertakenFlip`); the counts are right exactly when no failed flip was overtaken
  (`FlipProtocol.PendingConservedIff`), and a failing flip keeps right counts right exactly when its event is
  still queued (`FlipProtocol.FailureKeepsCountIff`).

## Model

| member | source | states |
|---|---|---|
| UmplockTheorems.MutualExclusion | driver/src/devicedrv/umplock/umplock_driver.c:177-310 | in every reachable state two threads with unreleased successful PROCESS calls on one secure id belong to the same process, and that process is the item's owner |
| UmplockTheorems.PermitConservation | driver/src/devicedrv/umplock/umplock_driver.c:207-238 | for a live item, semaphore count plus calls on their way from the semaphore to ownership plus owner is exactly one; a free item has no owner, no references and empty slots |
| UmplockTheorems.NoLostWakeup | driver/src/devicedrv/umplock/umplock_driver.c:213-214 | when a call waits and nobody holds the id or is on the way to owning it, the permit is there and the call can take it |
| UmplockExclusion.OwnerHolds | driver/src/devicedrv/umplock/umplock_driver.c:207-238 | whoever owns a live item has a thread that holds it |
| UmplockTheorems.IdleProcessOwnsItsItems | driver/src/devicedrv/umplock/umplock_driver.c:383-425 | a process owns every item in which it has a slot and on whose id it has no call in flight, so the deletion of a client meets only references it can release |
| UmplockTheorems.DownCountsWaits | driver/src/devicedrv/umplock/umplock_driver.c:203-226 | a slot's down count is its process's calls in flight on the id, and one more exactly for the owner |
| UmplockTheorems.ReleaseKeepsPermitIff | driver/src/devicedrv/umplock/umplock_driver.c:285-306 | from any reachable orderly state, a release of something held keeps the one permit if and only if no thread of the process is in a call on the id at that moment; otherwise there are two |
| UmplockTheorems.ReferenceAccounting | driver/src/devicedrv/umplock/umplock_driver.c:203-226 | for any number of threads per process: a slot counts its process's held plus waiting calls, the item's total is the sum over its slots, and an item is live exactly when that sum is positive |
| UmplockTheorems.TablesRefineMap | driver/src/devicedrv/umplock/umplock_driver.c:68-166 | in every reachable state the tables are consistent (distinct live ids, distinct pids per item, free items without pids, referenced pids registered), stand for the map from id and process to held plus waiting calls, and the searches return exactly the map's answer |
| UmplockTheorems.IndexStability | driver/src/devicedrv/umplock/umplock_driver.c:196-238 | the indices a call saved before dropping the mutex still name its own item and slot when it wakes or is interrupted |
| UmplockTheorems.NoResetUnderWaiter | driver/src/devicedrv/umplock/umplock_driver.c:148-161 | neither a booking nor the zap of a last close initialises a semaphore that a call waits on |
| UmplockTheorems.DrainEndsIffOwner | driver/src/devicedrv/umplock/umplock_driver.c:408-416 | repeated releases empty a slot if and only if the process owns the item |
| UmplockTheorems.InterruptedFreesOwnedIff | driver/src/devicedrv/umplock/umplock_driver.c:215-233 | an interrupted wait leaves a free item that names an owner if and only if it gives up the item's last reference while the item has an owner |
| UmplockLastClose.LastCloseLeavesNothing | driver/src/devicedrv/umplock/umplock_driver.c:508-526 | when the session count reaches zero, and before the zap, every item is already free, every slot and client empty, and on orderly runs nobody is left as an owner |
| UmplockLastClose.ZapIsInvisible | driver/src/devicedrv/umplock/umplock_driver.c:508-526 | the tables before and after the zap of the last close are alike, and every run goes on from both with the same steps enabled, to the same threads over alike tables |
| UmplockLastClose.AlikeRuns | driver/src/devicedrv/umplock/umplock_driver.c:177-526 | no run tells alike tables apart |
| UmplockLastClose.AlikeStep | driver/src/devicedrv/umplock/umplock_driver.c:177-526 | every step that one of two alike tables allows the other allows too, with the same answer, and they stay alike |
| UmplockLastClose.AlikeBook | driver/src/devicedrv/umplock/umplock_driver.c:177-211 | PROCESS answers the same on such tables and leaves them so |
| UmplockLastClose.AlikeRelease | driver/src/devicedrv/umplock/umplock_driver.c:243-310 | RELEASE answers the same on such tables and leaves them so |
| UmplockTheorems.ReachableCounted | driver/src/devicedrv/umplock/umplock_driver.c:120-425 | every reachable state has consistent tables that count exactly the calls, on orderly runs and on others |
| UmplockTheorems.ReachableExclusive | driver/src/devicedrv/umplock/umplock_driver.c:177-310 | every reachable state of orderly runs keeps permits, owners and holds in agreement |
| UmplockAccounting.BookCounts | driver/src/devicedrv/umplock/umplock_driver.c:177-211 | PROCESS keeps the tables consistent and adds one reference at its own process and id and nowhere else, moves no slot, and changes nothing when refused |
| UmplockAccounting.BookLands | driver/src/devicedrv/umplock/umplock_driver.c:120-194 | an accepted booking lands in the slot the process has, an empty slot of the live item, or the first slot of a free item; the second lookup never fails |
| UmplockAccounting.BookRefuses | driver/src/devicedrv/umplock/umplock_driver.c:120-201 | in all other cases PROCESS is refused and nothing changes |
| UmplockAccounting.UnrefCounts | driver/src/devicedrv/umplock/umplock_driver.c:285-299 | giving a reference back subtracts one at its process and id and nowhere else, empties the slot at zero, and moves no other slot |
| UmplockAccounting.LocateAnswersCount | driver/src/devicedrv/umplock/umplock_driver.c:68-101 | in consistent tables the two searches find a slot exactly where the count is positive, and find that slot |
| UmplockAccounting.MarksDoNotCount | driver/src/devicedrv/umplock/umplock_driver.c:235-239 | writing the owner or the semaphore does not touch the reference counts |
| UmplockCounting.ReleaseCounts | driver/src/devicedrv/umplock/umplock_driver.c:243-310 | a release that succeeds gives back one reference of the owner; any other changes nothing |
| UmplockCounting.StrayRelease | driver/src/devicedrv/umplock/umplock_driver.c:260-282 | a process that holds nothing and waits for nothing on an id cannot release it |
| UmplockAnswers.ReleaseAnswers | driver/src/devicedrv/umplock/umplock_driver.c:249-310 | over consistent tables RELEASE answers -EINVAL exactly for id 0 and to a client without a reference, -EPERM exactly to others that are no client or do not own the item, gives back a reference exactly to an owner that has one, and never answers success with nothing given back |
| UmplockAnswers.BookAnswers | driver/src/devicedrv/umplock/umplock_driver.c:177-211 | PROCESS is refused exactly for id 0, to a process that is no client, and when the id is not live and no item is free; on a live item it returns at once exactly to the owner |
| UmplockAnswers.BookUsage | driver/src/devicedrv/umplock/umplock_driver.c:147-161 | an item keeps the usage of the call that made it live, and no other item changes |
| UmplockAnswers.ClientAddLists | driver/src/devicedrv/umplock/umplock_driver.c:359-381 | adding a client fails exactly when it is not listed and no slot is empty; otherwise it is listed afterwards and nothing else changes |
| UmplockAnswers.ZapClears | driver/src/devicedrv/umplock/umplock_driver.c:312-332 | after a zap no id is live, no slot and no client is left, every semaphore has one permit, owner, usage and total are kept, and every release is refused |
| UmplockCounting.WalkFinds | driver/src/devicedrv/umplock/umplock_driver.c:396-407 | where the lookup comes back to the item it started from, the closing walk stops at the process's first reference and never goes back |
| UmplockCounting.StepCounted | driver/src/devicedrv/umplock/umplock_driver.c:177-526 | every step keeps the counting invariant |
| UmplockExclusion.StepExclusive | driver/src/devicedrv/umplock/umplock_driver.c:177-526 | every step of an orderly run keeps the exclusion invariant: permits, down counts, owners and holds agree |
| UmplockExclusion.GiveUpItem | driver/src/devicedrv/umplock/umplock_driver.c:215-233 | an interrupted wait leaves the item's permit where it was, and frees an item only when nobody owns it |
| UmplockExclusion.UnlockItem | driver/src/devicedrv/umplock/umplock_driver.c:285-306 | a release by an owner with no call in flight keeps the permit in one place; ownership and permit are given up exactly with the last reference |
| UmplockDeletion.DrainedSlot | driver/src/devicedrv/umplock/umplock_driver.c:408-416 | draining empties the slot, takes its references off the total, gives up the ownership, and raises the semaphore once plus once per extra recorded wait |
| UmplockDeletion.SearchComesBack | driver/src/devicedrv/umplock/umplock_driver.c:397-401 | in consistent tables the search that overwrites the loop index comes back to the same index, because free items have no slots |
| UmplockDeletion.DeletionForgets | driver/src/devicedrv/umplock/umplock_driver.c:383-425 | after the deletion the process is nowhere in the tables and owns nothing it held, no other process's counts or registration change, other items are untouched, and the tables are consistent |
| UmplockDeletion.DeletionStep | driver/src/devicedrv/umplock/umplock_driver.c:396-417 | one round of the walk drains the slot it finds or passes the item |
| UmplockClosing.CloseEndsIff | driver/src/devicedrv/umplock/umplock_driver.c:383-425 | from any reachable state, orderly or not, the own steps of a process that starts to close lead to the end of the close if and only if it owns every item in which it has a slot |
| UmplockClosing.ClosesAsDeleted | driver/src/devicedrv/umplock/umplock_driver.c:383-425 | whichever own steps bring a close to its end, the tables are exactly those of the deletion |
| UmplockClosing.CloseUndisturbed | driver/src/devicedrv/umplock/umplock_driver.c:383-425 | in every reachable state of orderly runs, a close that nobody interleaves with ends, with exactly the tables of the deletion |
| UmplockClosing.ClosesAloneIff | driver/src/devicedrv/umplock/umplock_driver.c:396-422 | from any reachable state, orderly or not, the own steps of a process inside its deletion walk lead to the end of the close if and only if the saved slot has no references or is its own, and it owns every item in which it has a slot |
| UmplockClosing.CloserOwns | driver/src/devicedrv/umplock/umplock_driver.c:383-425 | in every reachable state of orderly runs, a process that may close owns every item in which it has a slot, which the deletion needs |
| UmplockDisorder.LiveItemAccepts | driver/src/devicedrv/umplock/umplock_driver.c:120-146 | a registered client is never refused a live secure id: an item without an empty slot has one for every client |
| UmplockDisorder.DisorderBreaksExclusion | driver/src/devicedrv/umplock/umplock_driver.c:207-306 | from every reachable orderly state, a release while another thread of the process is in a call on the id can be continued, once a thread of another client may call, to two processes that hold the id |
| UmplockDisorder.AnyClientBreaksExclusion | driver/src/devicedrv/umplock/umplock_driver.c:207-306 | the same when the other client has no thread yet and only has the device open |
| UmplockTraces.ExclusionNeedsOrder | driver/src/devicedrv/umplock/umplock_driver.c:207-211 | with a release while another thread of the process waits for the id, two processes can hold it, through the early return on a stale owner |
| UmplockTraces.FreedItemMayKeepOwner | driver/src/devicedrv/umplock/umplock_driver.c:215-233 | the interrupted path can free an item without clearing its owner |
| UmplockTraces.CloserMaySpin | driver/src/devicedrv/umplock/umplock_driver.c:408-416 | a closing process with no slot left loops on a slot that another process took over |
| UmplockTraces.CloseMayNeverEnd | driver/src/devicedrv/umplock/umplock_driver.c:408-416 | without order, a reachable state from which no sequence of its own steps ends a process's close, because another process owns an item it still refers to |
| UmplockDriver.UmplockDevice.FindItem | driver/src/devicedrv/umplock/umplock_driver.c:68-78 | the index of the first item with the id, or -1 |
| UmplockDriver.UmplockDevice.FindItemByPid | driver/src/devicedrv/umplock/umplock_driver.c:80-101 | the located item and slot; the caller's indices are kept when nothing is found |
| UmplockDriver.UmplockDevice.FindClientValid | driver/src/devicedrv/umplock/umplock_driver.c:103-118 | the first client slot of a non-zero pid, or -1 |
| UmplockDriver.UmplockDevice.CreateLocked | driver/src/devicedrv/umplock/umplock_driver.c:120-169 | the tables of the specified create, or unchanged tables on failure |
| UmplockDriver.UmplockDevice.BeginProcess | driver/src/devicedrv/umplock/umplock_driver.c:177-214 | tables and answer of the specified booking |
| UmplockDriver.UmplockDevice.EndInterrupted | driver/src/devicedrv/umplock/umplock_driver.c:215-233 | the item after one reference is given back, nothing else changed, and the answer -ERESTARTSYS |
| UmplockDriver.UmplockDevice.EndProcess | driver/src/devicedrv/umplock/umplock_driver.c:235-240 | the owner is written, nothing else changed |
| UmplockDriver.UmplockDevice.Release | driver/src/devicedrv/umplock/umplock_driver.c:243-310 | tables and answer of the release that `ReleaseAnswers` and `ReleaseCounts` describe |
| UmplockDriver.UmplockDevice.GiveBack | driver/src/devicedrv/umplock/umplock_driver.c:285-306 | the item after one reference, its extra wait, its slot, the item, the owner and the permit are given up as the release says |
| UmplockDriver.UmplockDevice.Zap | driver/src/devicedrv/umplock/umplock_driver.c:312-332 | every item and client slot is cleared as specified; owner, usage and total are kept |
| UmplockDriver.UmplockDevice.ClientAdd | driver/src/devicedrv/umplock/umplock_driver.c:359-381 | a known client changes nothing, a new one takes the first empty slot, a full table is refused unchanged |
| UmplockDriver.UmplockDevice.ClientDelete | driver/src/devicedrv/umplock/umplock_driver.c:383-425 | ends, by items left and then references left, with exactly the tables without the client |
| UmplockDriver.UmplockDevice.DrainItems | driver/src/devicedrv/umplock/umplock_driver.c:396-417 | the walk over the items ends with exactly the tables of the deletion, client slot apart |
| UmplockDriver.UmplockDevice.DrainSlot | driver/src/devicedrv/umplock/umplock_driver.c:408-416 | releases until the slot is empty |
| UmplockDriver.UmplockDevice.Open | driver/src/devicedrv/umplock/umplock_driver.c:495-506 | one session more and the client added if there is room |
| UmplockDriver.UmplockDevice.Close | driver/src/devicedrv/umplock/umplock_driver.c:508-526 | the client deleted, one session less, and the tables zapped at zero |
| UmplockDriver.UmplockDevice.constructor | driver/src/devicedrv/umplock/umplock_driver.c:582-598 | the cleared tables from which all runs start |
| GemOrders.GetOrderIsLeast | libwayland_for_mali/h64/sunxi/sunxi_drm_gem.c:95-101 | the page order is the least whose block covers the size |
| GemOrders.OrderOfBlock | libwayland_for_mali/h64/sunxi/sunxi_drm_gem.c:221-227 | the order of a block's own length is the order it was allocated with |
| GemOrders.OrderForPages | libwayland_for_mali/h64/sunxi/sunxi_drm_gem.c:95-113 | the chosen order is within limits and is the greatest that overshoots by at most one page without doubling the request; beyond the largest block it is one below the largest, because the clamped difference wraps |
| GemOrders.OrderForRest | libwayland_for_mali/h64/sunxi/sunxi_drm_gem.c:95-113 | the order computed for an empty or overshot remainder is still valid |
| GemRequests.AskSuits | libwayland_for_mali/h64/sunxi/sunxi_drm_gem.c:99-139 | first of all and after each grant, the loop asks for the greatest order that suits what is left, beyond the largest block for the order below the largest |
| GemRequests.SinglePageEnds | libwayland_for_mali/h64/sunxi/sunxi_drm_gem.c:141-151 | a refused single page is the last request of a buffer; after any other refusal the next smaller order is asked for |
| GemRequests.AnswersDecideRequests | libwayland_for_mali/h64/sunxi/sunxi_drm_gem.c:127-163 | which orders are requested depends on nothing but which requests were granted |
| GemBuffers.RequestTakesTopBit | libwayland_for_mali/h64/sunxi/sunxi_drm_gem.c:99-112 | up to the largest block, a granted request removes the top bit of the pages left, or overshoots by one page and ends |
| GemBuffers.RequestLowersBound | libwayland_for_mali/h64/sunxi/sunxi_drm_gem.c:95-113 | at any size, a granted request lowers the bound on the blocks still needed by one, or overshoots by one page and ends |
| GemBuffers.MostIsHalfBlocksAndBits | libwayland_for_mali/h64/sunxi/sunxi_drm_gem.c:95-163 | the bound in closed form: one block for each half of the largest block until the rest fits it, then one for each one-bit of the rest |
| GemBuffers.FillingGranted | libwayland_for_mali/h64/sunxi/sunxi_drm_gem.c:141-162 | a granted request keeps the loop's account of pages, orders, blocks and pool |
| GemBuffers.GemBuffer.NocontigBufAlloc | libwayland_for_mali/h64/sunxi/sunxi_drm_gem.c:115-197 | for every pattern of answers: it fails for want of pages exactly when a single page was refused, for want of a record exactly when a record was refused, and succeeds when neither was, the size is not too large, and table and entries were granted; on success disjoint blocks of the size or one page more, of the orders granted and all from the pool, at most the bound of them if nothing was refused; on failure the pool is restored except for the one block without a record; the bad-order and total-size exits are never taken |
| GemBuffers.GemBuffer.FillBlocks | libwayland_for_mali/h64/sunxi/sunxi_drm_gem.c:127-163 | the loop ends, by remaining size and then order, in a state that accounts for every page and every request; it gives up exactly after a refused single page or a refused record |
| GemBuffers.GemBuffer.BuildTable | libwayland_for_mali/h64/sunxi/sunxi_drm_gem.c:165-188 | the table takes the blocks and their records are freed exactly when table and entries are granted; a table without entries stays behind |
| GemBuffers.GemBuffer.FreeBlocks | libwayland_for_mali/h64/sunxi/sunxi_drm_gem.c:190-196 | the listed blocks are back in the pool |
| GemBuffers.GemBuffer.FillTable | libwayland_for_mali/h64/sunxi/sunxi_drm_gem.c:180-188 | the scatter list has the blocks in order with their lengths, and their records are freed |
| GemBuffers.GemBuffer.LowlevelBufferDestroy | libwayland_for_mali/h64/sunxi/sunxi_drm_gem.c:212-243 | exactly the buffer's frames go back to the pool |
| GemBuffers.GemBuffer.GemCreat | libwayland_for_mali/h64/sunxi/sunxi_drm_gem.c:301-332 | a created buffer is backed by whole disjoint blocks from the pool, with all records freed; creation that fails after the buffer was built destroys it and restores pool and records; an allocation that fails restores the pool except for the one block without a record, and keeps the records of the blocks it had; it succeeds exactly when the size is not too large, no single page and no record was refused, and table, entries and object were granted |
| GemBuffers.GemBuffer.MapBuf | libwayland_for_mali/h64/sunxi/sunxi_drm_gem.c:395-428 | the fault at page k finds page k of the blocks laid end to end; no table and an offset beyond the size are the two errors |
| GemPages.FlatBlock | libwayland_for_mali/h64/sunxi/sunxi_drm_gem.c:414-421 | a block's frames lie in the flat list behind those of the blocks before it |
| GemPages.BlockApart | libwayland_for_mali/h64/sunxi/sunxi_drm_gem.c:221-227 | in a list without repetition a block shares no frame with those before it |
| GemMapping.DmabufMmap | libwayland_for_mali/h64/sunxi/sunxi_drm_dmabuf.c:162-209 | virtual page k is mapped to the frame of buffer page offset + k, each page once, as far as mapping and buffer both reach, and nothing else; a failing call leaves a beginning of that; it succeeds exactly when no range was refused |
| GemMapping.MapBlock | libwayland_for_mali/h64/sunxi/sunxi_drm_dmabuf.c:183-203 | one block is mapped from its offset as far as the mapping reaches, behind what is mapped already; a failing call maps a beginning of that |
| GemMapping.StartPageFits | libwayland_for_mali/h64/sunxi/sunxi_drm_dmabuf.c:169-169 | the byte offset names the page that was asked for exactly when it fits the word |
| GemMapping.BackedIsPageSized | libwayland_for_mali/h64/sunxi/sunxi_drm_gem.c:141-188 | the scatter lists that the allocator builds consist of whole pages, as the mapping needs |
| GemDumb.PixelsResolve | libwayland_for_mali/h64/sunxi/sunxi_drm_gem.c:245-267 | every pixel's last byte lies in the buffer if and only if width times bytes times height is positive, below 2^32, and fits the word after alignment |
| GemDumb.CppIsLeast | libwayland_for_mali/h64/sunxi/sunxi_drm_gem.c:259-259 | the bytes per pixel are the least number that holds the bits, unless the sum wraps |
| GemDumb.SizeHoldsBits | libwayland_for_mali/h64/sunxi/sunxi_drm_gem.c:259-262 | when the size is representable, a pitch holds the bits of a row, and the size is the least number of whole pages that holds all rows |
| GemDumb.PixelFrames | libwayland_for_mali/h64/sunxi/sunxi_drm_gem.c:395-428 | then every pixel has a frame, and two bytes share a frame exactly when they share a page |
| GemDumb.AlignedTwice | libwayland_for_mali/h64/sunxi/sunxi_drm_gem.c:203-205 | aligning the size once more before the allocation changes nothing |
| GemDumb.DumbCreat | libwayland_for_mali/h64/sunxi/sunxi_drm_gem.c:245-332 | a created dumb buffer is backed from the pool, can be mapped at once, has a different frame for each page, and, when its size is representable, a frame for every pixel; then pitch and size hold the bits of a row and of all rows |
| LatchProtocol.LatchCoherence | libwayland_for_mali/h64/sunxi/sunxi_drm_crtc.c:741-765 | over every interleaving with a line left, the hardware shows complete commits only, and a latch shows all complete ones |
| LatchProtocol.CountersAgreeShowsLatest | libwayland_for_mali/h64/sunxi/sunxi_drm_crtc.c:738-766 | when the two counters agree, with less than a word of frames pending and a latch since the mode set, the hardware shows every commit |
| LatchProtocol.LatchOnAnyRun | libwayland_for_mali/h64/sunxi/sunxi_drm_crtc.c:741-765 | on any run, a latch with the lock or without shows all complete commits and exactly what the current one has written; with none going on, whole commits |
| LatchProtocol.LatchInsideCommitIff | libwayland_for_mali/h64/sunxi/sunxi_drm_crtc.c:741-765 | for a commit of n writes, k of them done, a latch without the lock, and as well a later one with the lock, shows whole commits in every reachable state if and only if k is 0 or n |
| LatchProtocol.LockOpenIff | libwayland_for_mali/h64/sunxi/sunxi_drm_crtc.c:747-765 | in the middle of a commit the handler gets the lock if and only if it has unlocked since the commit began |
| LatchProtocol.CoherentIffALineIsLeft | libwayland_for_mali/h64/sunxi/sunxi_drm_crtc.c:741-752 | over all runs on which a line is always left nothing torn is shown, and among the runs where the handler may be told of none there is one that shows part of a commit |
| LatchProtocol.HalfLatched | libwayland_for_mali/h64/sunxi/sunxi_drm_crtc.c:741-756 | a reachable state in which the hardware shows one of the two writes of a commit |
| LatchProtocol.FrameAccounting | libwayland_for_mali/h64/sunxi/sunxi_drm_crtc.c:161-216 | modulo the word, over all runs without a power-off while unused, mode sets at any moment of the handler included: the handler's counter is latches plus skipped frames, the committers' counter adds what is pending, and every ended vsync was one of latch, skip, idle |
| LatchProtocol.PowerOffAccounting | libwayland_for_mali/h64/sunxi/sunxi_drm_crtc.c:176-181 | a power-off while unused keeps the whole of that accounting if and only if both frame counters were zero |
| LatchProtocol.PowerOffWithFramePending | libwayland_for_mali/h64/sunxi/sunxi_drm_crtc.c:176-181 | a reachable state with the handler's counter zero and one frame pending, in which the power-off breaks the accounting |
| LatchProtocol.ResetIff | libwayland_for_mali/h64/sunxi/sunxi_drm_crtc.c:206-216 | the stores of a mode set restart the accounting, whatever the handler does between them, if and only if nothing is pending or skipped for it to count: both counters zero, or one wrapped frame about to be latched |
| LatchProtocol.SkipCounted | libwayland_for_mali/h64/sunxi/sunxi_drm_crtc.c:760-763 | the wrapped difference added at a latch counts the frames it covered but did not show |
| LatchProtocol.LastWriteHolds | libwayland_for_mali/h64/sunxi/sunxi_drm_crtc.c:797-818 | a register that is written holds the value of its last write |
| LatchProtocol.UnwrittenKeeps | libwayland_for_mali/h64/sunxi/sunxi_drm_crtc.c:797-818 | a register that is not written keeps its value |
| LatchProtocol.ReplayIsAllWrites | libwayland_for_mali/h64/sunxi/sunxi_drm_crtc.c:797-818 | complete commits leave what all their writes leave in order |
| LatchDriver.TryLoop | libwayland_for_mali/h64/sunxi/sunxi_drm_crtc.c:741-752 | at most twenty attempts per line; it goes on exactly when an attempt got the lock or no attempt was allowed |
| LatchDriver.SunxiCrtc.VsyncProc | libwayland_for_mali/h64/sunxi/sunxi_drm_crtc.c:716-775 | a vsync is exactly one of idle, latch, or one skip, as time and lock decide, with the counters of each |
| LatchDriver.SunxiCrtc.Show | libwayland_for_mali/h64/sunxi/sunxi_drm_crtc.c:756-764 | the hardware takes the whole cache and the counters account for it |
| LatchDriver.SunxiCrtc.Miss | libwayland_for_mali/h64/sunxi/sunxi_drm_crtc.c:770-774 | one skip if a frame is pending, else nothing |
| LatchDriver.SunxiCrtc.UpdataReg | libwayland_for_mali/h64/sunxi/sunxi_drm_crtc.c:777-823 | a commit announces one frame and applies its writes in order; without a connector nothing happens |
| LatchDriver.SunxiCrtc.SetDpms | libwayland_for_mali/h64/sunxi/sunxi_drm_crtc.c:141-192 | switching on announces a frame if used and not on before; switching off while unused resets the two frame counters only |
| LatchDriver.SunxiCrtc.Prepare | libwayland_for_mali/h64/sunxi/sunxi_drm_crtc.c:194-217 | a mode set leaves the display on and all four counters zero |
| FbdevConfig.FindSimilarModes | libwayland_for_mali/h64/sunxi/sunxi_drm_fbdev.c:333-377 | the first minimiser of the fixed-point aspect distance among modes at least as large as the reference and within the initial bound, or the head when there is none |
| FbdevConfig.DistanceIsAspect | libwayland_for_mali/h64/sunxi/sunxi_drm_fbdev.c:347-367 | the distance of two modes is the difference of their aspect ratios in 1024ths, to less than one |
| FbdevConfig.MostSimilarIsNearest | libwayland_for_mali/h64/sunxi/sunxi_drm_fbdev.c:355-372 | no mode at least as large and within bounds is nearer to the reference's aspect ratio by 2/1024 or more than the chosen one |
| FbdevConfig.SameAspectWins | libwayland_for_mali/h64/sunxi/sunxi_drm_fbdev.c:355-372 | if some mode at least as large has exactly the reference's aspect ratio, the chosen one is at least as large and differs from it by less than 1/1024 |
| FbdevConfig.MostSimilarUnique | libwayland_for_mali/h64/sunxi/sunxi_drm_fbdev.c:333-377 | that mode is unique |
| FbdevConfig.HeadFits | libwayland_for_mali/h64/sunxi/sunxi_drm_fbdev.c:417-426 | the reference connector shows its own first mode |
| FbdevConfig.ReferenceIsFirstLcd | libwayland_for_mali/h64/sunxi/sunxi_drm_fbdev.c:396-426 | the reference is the first enabled LCD, else the first enabled connector, and there is none exactly when nothing is enabled |
| FbdevConfig.AssignmentIsGreedy | libwayland_for_mali/h64/sunxi/sunxi_drm_fbdev.c:434-449 | controllers are pairwise different, allowed by the encoder, and the least that no earlier connector has |
| FbdevConfig.GoesWithoutIff | libwayland_for_mali/h64/sunxi/sunxi_drm_fbdev.c:434-449 | a connector with an encoder goes without exactly when all its allowed controllers went to earlier connectors |
| FbdevConfig.ChooseCrtc | libwayland_for_mali/h64/sunxi/sunxi_drm_fbdev.c:434-448 | the least allowed free controller, or none |
| FbdevConfig.InitialConfig | libwayland_for_mali/h64/sunxi/sunxi_drm_fbdev.c:379-453 | at most two passes; every enabled connector shows the mode most similar to the first mode of the first enabled LCD, else of the first enabled connector; every connector gets its greedy controller or keeps its entry |
| FlipProtocol.PendingConserved | libwayland_for_mali/h3/sunxi/sunxi_crtc.c:120-125 | with flips atomic against the vsync, pending count, queue length and vblank references agree, and switching off proceeds exactly when the queue is empty |
| FlipProtocol.PendingConservedIff | libwayland_for_mali/h3/sunxi/sunxi_crtc.c:355-374 | interleaved as the code allows, the pending count is the queue length less the failed flips a vsync overtook, hence right exactly when there is none |
| FlipProtocol.FailureKeepsCountIff | libwayland_for_mali/h3/sunxi/sunxi_crtc.c:363-374 | from any reachable state with a flip in flight and the counts right, the flip's failure keeps them right if and only if its event is still queued |
| FlipProtocol.EventsReachTheirFiles | libwayland_for_mali/h3/sunxi/sunxi_crtc.c:387-417 | the event of every accepted flip is in its own file's inbox or still queued for it, once and in flip order, and nothing else is; a vsync empties the queue into the inboxes |
| FlipProtocol.OvertakenFlip | libwayland_for_mali/h3/sunxi/sunxi_crtc.c:363-374 | from any reachable state with a flip in flight, a vsync followed by the flip's failure leaves an empty queue with a negative pending count, and switching off then waits |
| FlipProtocol.FlightReached | libwayland_for_mali/h3/sunxi/sunxi_crtc.c:322-362 | any event can be in flight in a reachable state |
| FlipProtocol.PowerOffMayWait | libwayland_for_mali/h3/sunxi/sunxi_crtc.c:109-128 | so a reachable state has an empty queue and a negative pending count, and its power-off waits |
| FlipProtocol.DeliveredInOrder | libwayland_for_mali/h3/sunxi/sunxi_crtc.c:398-414 | delivering a list appends to each inbox that file's events in order |
| FlipProtocol.OfParts | libwayland_for_mali/h3/sunxi/sunxi_crtc.c:398-414 | the events of one file in a list are its own events in the order of the list |
| FlipProtocol.OffAfterPowerOff | libwayland_for_mali/h3/sunxi/sunxi_crtc.c:109-128 | after a power-off no flip begins until a power-on |
| FlipDriver.FlipCrtc.PageFlip | libwayland_for_mali/h3/sunxi/sunxi_crtc.c:322-385 | succeeds exactly when on, the frame can be set, and the vblank reference is granted if asked for; a failing call leaves frame, queue and counts as they were |
| FlipDriver.FlipCrtc.FinishPageflip | libwayland_for_mali/h3/sunxi/sunxi_crtc.c:387-417 | the queue is empty and every file has its events appended in order |
| FlipDriver.FlipCrtc.Dpms | libwayland_for_mali/h3/sunxi/sunxi_crtc.c:109-128 | gets through exactly when nothing changes, the level is on, or no flip is queued |

## Left out

- MutualExclusion: needs orderly runs, one open per process, and no ZAP call; without order it is false.
- ClosesAloneIff: is about the closing process's own steps; what others do meanwhile can change slot and owners again, and no scheduler is assumed.
- UmplockDevice: models one call at a time under the mutex; interleavings are those of the protocol.
- Book: reference counts and totals are unbounded integers, so their wrap at 32 bits is not modelled.
- The semaphore's queue: which waiter gets the permit is left open, so no fairness is claimed.
- The window between reading zero sessions and the zap, in which an open can slip in.
- The ZAP, CREATE and DUMP calls, command decoding and user-space copies, and character-device registration.
- GemBuffers: contiguous buffers, cache maintenance, import and export reference counts, and the scatter table left behind when its allocation fails.
- Memory: block alignment and the zone flags of page requests.
- GemCreat: the handle and mmap-offset bookkeeping of the DRM core.
- Vma: page protections and the unmapping that follows a failed mapping.
- LatchProtocol: the two reads of the committers' counter inside one latch are one read; the lock is a flag, so the ticket that an unlocking too many consumes is not modelled; commits and mode sets exclude one another by the mode-setting lock of the DRM core, which is not part of this model.  In runs a mode set's stores are one step; `ResetIff` says exactly when that is right.
- TryLoop: the product of lines and twenty is not wrapped at 32 bits.
- UpdataReg: the delayed plane updates, whose operation is a null pointer and whose flag is never set; the writes of one commit are a parameter.
- VsyncProc: the page-flip events and the deferred work that the h64 handler also triggers.
- FindSimilarModes: the 32-bit branch, which differs in the initial bound and shifts in 32 bits.
- InitialConfig: command-line modes; enabled connectors without modes, and a first enabled or reference connector whose first mode has zero lines, on which the code reads past a list or divides by zero.
- FinishPageflip: the flag that lets the h3 vsync handler skip it, and the time stamps of the events.
- FlipProtocol: events that user space has already read when a failed flip unlinks them.
- Framebuffer reference counts, pixel formats, clocks, interrupts, backlight and register layouts, which are hardware calls and case tables.
- The EGL, GLES and KHR headers, which declare and do not compute.
