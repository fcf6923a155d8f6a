# Edgeless RT: verified models of the enclave's kernel services

Edgeless RT re-implements kernel services inside an SGX enclave.  This project models the small
stateful cores of these services and proves what the rest of the runtime relies on.  `dafny verify
dfyconfig.toml` checks everything.

Sequential code that updates data in place is modelled by classes and loops over the same data (words,
linked lists, circular buffers, reference counts, the bitmap in the heap).  Each of their methods is
proved against a specification.  Concurrent code is modelled by a state machine with one step
per locked section, atomic access or kernel call; where a step does what such a method does, it uses the
same specification function.  The theorems speak about every run, that is every interleaving of any number of threads.

| file | contents |
|---|---|
| `Common.dfy` | shared definitions |
| `Bitset.dfy` | masks and searches on 64-bit words |
| `PageSpec.dfy`, `PageAllocator.dfy` | what `mmap` promises about the set of used pages, and the allocator over the bitmap that keeps it |
| `RingBuffer.dfy` | the circular byte buffer, and the listener backlog that stores pointers in one |
| `FutexQueue.dfy`, `FutexList.dfy` | the wait list as a queue of entries, and the linked list |
| `FutexProtocol.dfy`, `FutexReturns.dfy`, `FutexGuarantee.dfy` | the enclave and host halves of the futex, what its calls return, and what its users rely on |
| `SocketObjects.dfy` | buffers, reference counts and the list of bound sockets, updated in place |
| `Sockets.dfy` | the socket operations as steps of a state machine |
| `SocketAccounting.dfy` | reference counts and the lifetime of connections |
| `SocketBacklog.dfy` | order and capacity of a listener's backlog |
| `SocketStreams.dfy`, `SocketProgress.dfy`, `SocketStranded.dfy` | byte streams, end of stream, blocked calls, how a send completes, and exactly which calls a close leaves behind |
| `ThreadQueue.dfy`, `ThreadLifecycle.dfy`, `ThreadProgress.dfy` | the queue of threads to be started, the life of a thread descriptor, and what threads can always still do |
| `CancelHandshake.dfy` | canceling the host threads of an enclave |
| `Clock.dfy` | the sequence-lock read of timestamps and the monotonic clamp |

## Where the code falls short

These are statements of the model about the code as it is.  Each comes with the exact condition.

- A heap whose page count is not a multiple of 8 can get a bitmap with too few bits
  (`PageAllocator.HeapSplit` says exactly when; a heap of 32770 pages is one case).
- The first-fit search reports a run that does not exist when its end wraps around
  (`Bitset.FindUnsetRange`, `Bitset.OverflowIsWrong`); the allocator's length check rules this out.
- Closing a listener with a pending connection whose client socket is still open releases the
  connection's lock through a pointer that was just set to NULL
  (`SocketAccounting.FaultsExactlyOnListenerClose`, `SocketStranded.ListenerCloseFaults`).  No other
  socket operation faults, and a run ends at this fault.
- Closing the last socket of a side to which a sender is blocked leaves that sender asleep
  (`SocketStranded.WhoIsStranded`, `SocketStranded.StrandedForever`).
- A send on a nonblocking socket, or with the flag for it, sleeps like any other
  (`SocketStreams.SendSleepsExactly`).
- A futex wait that times out reports the timeout even if a wake call has already popped and counted it,
  so the wake is lost to a thread that waits on (`FutexGuarantee.TimeoutHidesWake`,
  `FutexGuarantee.WakeLostToTimeout`).
- MAP_FIXED requests, munmap and madvise accept ranges whose end wraps around the address space, and write
  outside of the heap (`PageAllocator.Heap.RangeCheckExact`, `PageAllocator.Heap.Mmap`).
- A failed thread creation deletes its descriptor even if another host thread has already popped it
  (`ThreadLifecycle.FailedCreationIsSafeIffQueued`), and for each such failure some creation is never served
  (`ThreadProgress.MismatchStrandsSomebody`).
- A thread that detaches itself before its creation has returned can delete its descriptor under its
  creator (`ThreadLifecycle.SelfDetachIsSafeIffReturned`).
- One wake call wakes at most 128 threads, and a requeue moves all remaining waiters, whatever limit the
  caller passes; Linux documents a caller-supplied limit for both.

## Model

| member | source | states |
|---|---|---|
| Bitset.ZeroWord | src/ert/common/bitset.c:88-98 | a word is 0 exactly when none of its 64 bits is set, so the loop over whole words skips no wanted bit |
| Bitset.HighMask | src/ert/common/bitset.c:20 | the mask of the first word selects exactly the bits from the shift on, for every shift below the word width |
| Bitset.LowMask | src/ert/common/bitset.c:35 | the mask of the last word selects exactly the bits below the end |
| Bitset.SetRange | src/ert/common/bitset.c:11-37 | sets exactly the bits in [pos, pos + count), touches no word outside the range, and never shifts by the word width |
| Bitset.ResetRange | src/ert/common/bitset.c:39-65 | clears exactly the bits in [pos, pos + count), touches no word outside the range, and never shifts by the word width |
| Bitset.SkipZeroWords | src/ert/common/bitset.c:88-95 | the loop stops at the first word with a wanted bit, or after all words of the bitset without having passed one |
| Bitset.FindNextBit | src/ert/common/bitset.c:70-103 | returns the first position at or after pos with the wanted bit inside the bitset, or the size if there is none |
| Bitset.BlockedRuns | src/ert/common/bitset.c:122-128 | no run of the wanted length starts between the search position and the blocking 1 bit, so skipping past it is right |
| Bitset.FindUnsetRange | src/ert/common/bitset.c:105-130 | without overflow of size + count, returns the least position of count 0 bits, or SIZE_MAX exactly if there is none; what it returns for a full bitset when the sum overflows |
| Bitset.OverflowIsWrong | src/ert/common/bitset.c:118-126 | in a full bitset the result is right exactly if size + count does not overflow or the size is SIZE_MAX |
| Bitset.FindSetRange | src/ert/common/bitset.c:132-155 | returns the first maximal run of 1 bits at or after pos, or SIZE_MAX exactly if there is none |
| PageSpec.LowestFitIsLowest | src/ert/libc/mman.c:59-66 | the specified position is free, inside the data area, and no lower one fits; none is specified only if nothing fits |
| PageSpec.LiveMappingsAreDisjoint | src/ert/libc/mman.c:55-72 | over every run, a page is handed out a second time by a non-fixed mmap only if it was unmapped in between |
| PageSpec.UsedWasGranted | src/ert/libc/mman.c:116-137 | every used page was granted by some request and not unmapped since |
| PageAllocator.HeapSplit | src/ert/libc/mman.c:29-38 | the bitmap has a bit for each data page exactly if the pages beyond a multiple of 32768 are at least 8 or no more than the full multiples |
| PageAllocator.BitmapPages | src/ert/libc/mman.c:31-33 | the bitmap takes one page for each 32768 pages of the heap, and one more for a rest of at least 8 |
| PageAllocator.HeapSplitMultipleOf8 | src/ert/libc/mman.c:31-36 | the split works for every positive multiple of 8 pages |
| PageAllocator.HeapSplitFails | src/ert/libc/mman.c:31-36 | a heap of 32770 pages gets a bitmap that is too small |
| PageAllocator.SplitMeans | src/ert/libc/mman.c:31-36 | the split works exactly if the bit of every data page lies in the bitmap and not in a data page |
| PageAllocator.FirstFitIsLowestFit | src/ert/libc/mman.c:61-66 | the first fit on bits is the lowest fit on pages, including failure |
| PageAllocator.Heap.Init | src/ert/libc/mman.c:29-38 | lays out and clears the bitmap of any heap and leaves the data as it was; no page is used if the split works |
| PageAllocator.Heap.RangeCheckExact | src/ert/libc/mman.c:40-48 | the check of addresses on 64 bits is right exactly if the end of the range does not wrap |
| PageAllocator.Heap.Map | src/ert/libc/mman.c:55-72 | obtains the lowest free run, marked used and zero-filled, with all other data unchanged, or fails with ENOMEM exactly if no free run fits |
| PageAllocator.Heap.MapFixed | src/ert/libc/mman.c:74-83 | obtains exactly the requested pages, mapped or not, or fails with ENOMEM if they are out of range, and writes elsewhere exactly if the end wraps |
| PageAllocator.Heap.Mmap | src/ert/libc/mman.c:40-124 | a supported request with whole-page count n is granted exactly if 0 < n < the data pages and n free pages lie side by side, or for MAP_FIXED if its pages are inside; the outcome for all other arguments, including ends that wrap; each call that obtains pages is one step of the specification |
| PageAllocator.Heap.Munmap | src/ert/libc/mman.c:126-143 | succeeds exactly for an aligned address and a page range inside the data area that leaves a page over, removes exactly those pages from the used set, changes nothing if it is refused, and writes elsewhere exactly if the end wraps |
| PageAllocator.Heap.Madvise | src/ert/libc/mman.c:145-165 | MADV_DONTNEED succeeds exactly for a page range inside the data area that leaves a page over, and clears exactly those pages; which pages are used does not change unless the end wraps |
| RingBuffer.Ring.ReadPass | src/ert/common/ringbuffer.c:20-36 | one pass hands out a prefix of the stored bytes, all that was asked for unless it stopped at the end of the array |
| RingBuffer.Ring.Read | src/ert/common/ringbuffer.c:38-45 | hands out exactly the first min(size, stored) bytes, in order, and removes them; two passes suffice |
| RingBuffer.Ring.WritePass | src/ert/common/ringbuffer.c:47-63 | one pass appends a prefix of the data, all that fits unless it stopped at the end of the array |
| RingBuffer.Ring.Write | src/ert/common/ringbuffer.c:65-75 | appends exactly the first min(size, free) bytes; two passes suffice |
| RingBuffer.Ring.Empty | src/ert/common/ringbuffer.c:77-81 | true exactly if no byte is stored |
| RingBuffer.BytesConserved | src/ert/common/ringbuffer.c:38-75 | over every run the bytes read followed by the bytes stored are the bytes accepted |
| RingBuffer.BacklogPush | src/ert/enclave/internalsock.c:420-425 | a pointer is stored whole or, exactly if the backlog is full, not at all |
| RingBuffer.BacklogPop | src/ert/enclave/internalsock.c:638-642 | reading the size of a pointer takes out the oldest pointer, or nothing |
| FutexList.WaitList.Collect | src/ert/libc/ertfutex.c:246-253 | the loop over single pops takes what popping one at a time is specified to take |
| FutexQueue.PopsTakeOldest | src/ert/libc/ertfutex.c:246-253 | popping one waiter at a time takes exactly the oldest min(n, matching) waiters and keeps all others in order |
| FutexQueue.OthersKeepOrder | src/ert/libc/ertfutex.c:246-253 | a wake leaves the waiters on every other address alone |
| FutexQueue.WokenOrQueued | src/ert/libc/ertfutex.c:233-266 | every queued thread is afterwards woken or still queued, and no thread is added |
| FutexQueue.RetargetMatching | src/ert/libc/ertfutex.c:161-171 | after a requeue nobody waits on the first address, threads keep their places, and third addresses are unaffected |
| FutexList.WaitList.Unlink | src/ert/libc/ertfutex.c:71-79 | removes exactly that node and keeps front, back and all links right |
| FutexList.WaitList.PushBack | src/ert/libc/ertfutex.c:81-93 | appends the thread at the back |
| FutexList.WaitList.Pop | src/ert/libc/ertfutex.c:95-112 | takes out the oldest waiter on the address, or nothing if there is none |
| FutexList.WaitList.Contains | src/ert/libc/ertfutex.c:114-125 | true exactly if the object is queued |
| FutexList.WaitList.Remove | src/ert/libc/ertfutex.c:127-142 | takes out exactly the given object, from any place, which is the thread's entry in the protocol |
| FutexList.WaitList.RemoveTcs | src/ert/libc/ertfutex.c:144-159 | takes out the first object of that thread, or nothing |
| FutexList.WaitList.Replace | src/ert/libc/ertfutex.c:161-171 | retargets every match without reordering |
| FutexList.WaitList.Wake | src/ert/libc/ertfutex.c:233-259 | collects the oldest min(val, 128, matching) waiters in order, and requeues the rest if asked to |
| FutexProtocol.NoLostWakeUp | src/ert/libc/ertfutex.c:195-266 | in every interleaving, a thread before or inside its host wait that is no longer queued has a token in its host event or in some waker's array |
| FutexProtocol.HostCounterBalance | src/ert/host/core.c:11-70 | the host counter is wakes minus zero-returning waits minus one during a wait, so zero returns never exceed wakes |
| FutexProtocol.SleeperIsSignalled | src/ert/host/core.c:20-66 | a thread asleep although its counter is not -1 has a FUTEX_WAKE still to be delivered |
| FutexProtocol.QuiescentSleepersAreQueued | src/ert/libc/ertfutex.c:173-266 | when no wake call is in progress, every thread asleep in the kernel is still queued |
| FutexProtocol.UnqueuedWasPopped | src/ert/libc/ertfutex.c:199-225 | a waiting thread that is not queued was popped by a wake on the address it was queued under at that moment, during this wait |
| FutexProtocol.ZeroMeansPopped | src/ert/libc/ertfutex.c:219-224 | a wait returns 0 only if this wait's own entry was popped; stale tokens only cause another round |
| FutexProtocol.TimeoutsAreReal | src/ert/libc/ertfutex.c:203-217 | a wait reports a timeout only if its last host wait timed out in the kernel |
| FutexReturns.TimeoutPath | src/ert/host/core.c:29-37 | a thread undoes its host count exactly after a kernel timeout, and is about to report the timeout exactly after that |
| FutexReturns.WaitResult | src/ert/libc/ertfutex.c:199-231 | in every reachable state, a wait that takes the lock returns the timeout exactly if its last host wait timed out, else 0 exactly if it is no longer queued, and otherwise goes back to the host |
| FutexReturns.TimeoutComesFromKernel | src/ert/host/core.c:29-37 | in every run the host count is undone only right after a timeout in the kernel |
| FutexReturns.TimedOutWaitEnds | src/ert/libc/ertfutex.c:203-217 | after a timeout in the kernel the thread's next two steps end its wait with the timeout and off the list, whatever other threads do in between |
| FutexReturns.QueuedWaiterCanSleep | src/ert/host/core.c:11-27 | stale tokens only delay a queued waiter: by its own steps it falls asleep in the kernel, still queued |
| FutexReturns.SignalledIfNeeded | src/ert/host/core.c:50-69 | a token comes with a FUTEX_WAKE except if the receiver has exactly the unconsumed tokens that it needs, so a sleeper without a token is always signalled and a thread outside with none never |
| FutexReturns.WakeCallDelivers | src/ert/libc/ertfutex.c:233-266 | a wake call can finish by its own steps; it has then given one token to each thread that it took off the list, and returns their number |
| FutexProtocol.ReturnWithToken | src/ert/libc/ertfutex.c:199-231 | a popped thread whose token is stored returns after at most three steps |
| FutexProtocol.PoppedWaiterCanReturn | src/ert/libc/ertfutex.c:199-266 | in every reachable state a popped waiter can return by steps that only finish calls in progress |
| FutexProtocol.WakesLongestWaiting | src/ert/libc/ertfutex.c:246-253 | a wake never passes over a thread for one that began to wait later on the same address |
| FutexGuarantee.TimeoutHidesWake | src/ert/libc/ertfutex.c:212-217 | a wait that timed out reports the timeout although it was popped exactly if it is no longer queued when it takes the lock |
| FutexGuarantee.WakeLostToTimeout | src/ert/libc/ertfutex.c:212-217 | a run in which the only wake goes to a thread that reports a timeout while another one sleeps on |
| FutexGuarantee.CallWakes | src/ert/libc/ertfutex.c:268-292 | a call of the entry point wakes min(matching, val, 128) threads, a negative val counting as no limit, keeps the others, and a requeue leaves nobody behind |
| FutexGuarantee.CallsSupported | src/ert/libc/ertfutex.c:268-292 | exactly which calls wait, with a relative or an absolute timeout, which wake or requeue, and which fail or abort |
| FutexGuarantee.WaitsOnlyForExpectedValue | src/ert/libc/ertfutex.c:186-197 | a wait appends the thread to the list exactly if the value is the expected one, and otherwise returns at once without a change |
| FutexGuarantee.NoWaiterMissesAChange | src/ert/libc/ertfutex.c:186-259 | after a change of the value and a wake of everybody, whoever waits on the address waits for another value, whatever happens later |
| SocketObjects.Buffer.Add | src/ert/enclave/internalsock.c:239-273 | registers the socket in the first free slot and counts it, or leaves everything alone if the slots are full |
| SocketObjects.Buffer.Remove | src/ert/enclave/internalsock.c:284-305 | unregisters exactly that socket and drops one reference; the assertions fail exactly if it was not registered or not counted |
| SocketObjects.Buffer.Write | src/ert/enclave/internalsock.c:961-962 | the write of a send round does to the ring what the state machine says |
| SocketObjects.Buffer.Read | src/ert/enclave/internalsock.c:905 | the read of a receive round does to the ring what the state machine says, and hands out those bytes |
| SocketObjects.BoundList.Find | src/ert/enclave/internalsock.c:151-157 | finds the socket bound to the port exactly if there is one |
| SocketObjects.BoundList.UnusedPort | src/ert/enclave/internalsock.c:351-362 | picks the lowest unused port from 1024 for port 0, and refuses used ports and a full range |
| SocketObjects.BoundList.Bind | src/ert/enclave/internalsock.c:333-382 | adds the port in front of the list, or leaves the list alone |
| SocketObjects.BoundList.Remove | src/ert/enclave/internalsock.c:533-541 | takes exactly that object out of the list |
| SocketObjects.FreeBacklog | src/ert/enclave/internalsock.c:549-571 | the loop over the ring of pointers frees all connections in order if no client side is referenced, and otherwise reaches the null pointer, as the state machine says |
| SocketAccounting.DrainMeans | src/ert/enclave/internalsock.c:549-571 | draining faults exactly if a pending connection still has its client, and otherwise frees each one once, in order |
| SocketAccounting.DupEffect | src/ert/enclave/internalsock.c:448-475 | a dup adds one reference and one slot on its side, or aborts exactly if the side has two sockets |
| SocketAccounting.AcceptEffect | src/ert/enclave/internalsock.c:637-661 | an accept turns the backlog's reference into the new socket's |
| SocketAccounting.CloseConnectedEffect | src/ert/enclave/internalsock.c:275-321 | closing removes one socket, and frees the connection exactly if both sides lost all references |
| SocketAccounting.RefcountsAreExact | src/ert/enclave/internalsock.c:239-321 | over every run each count is the number of open sockets of its side, plus one on the server side while pending |
| SocketAccounting.FreedExactlyWhenUnreferenced | src/ert/enclave/internalsock.c:307-314 | a published connection is freed exactly when no socket and no backlog refers to it |
| SocketAccounting.FaultsExactlyOnListenerClose | src/ert/enclave/internalsock.c:562-568 | a step faults exactly if it closes a listener whose backlog holds a connection with an open client socket |
| SocketAccounting.SafeForever | src/ert/enclave/internalsock.c:275-321 | a run faults exactly if it contains such a close, so no other step fails an assertion or uses a freed connection; no connection is freed twice |
| SocketAccounting.AbortsOnlyOnThirdDup | src/ert/enclave/internalsock.c:261-265 | the only aborting step is a dup on a side that already has two sockets |
| SocketAccounting.ZeroIsFinal | src/ert/enclave/internalsock.c:323-331 | a side that once has no reference never has one again |
| SocketBacklog.BacklogInOrder | src/ert/enclave/internalsock.c:420-425 | pending connections are queued in the order of their connect calls |
| SocketBacklog.BindOutcome | src/ert/enclave/internalsock.c:333-382 | a bind is refused exactly if the port is taken, or for port 0 all are; otherwise the socket gets it, or the lowest unused one, and does not listen yet |
| SocketBacklog.ListenOutcome | src/ert/enclave/internalsock.c:681-709 | a second listen changes nothing; the first one makes room for max(backlog, 1) connections |
| SocketBacklog.ConnectOutcome | src/ert/enclave/internalsock.c:384-446 | a connect is refused exactly if nobody listens on the port or the backlog is full; otherwise both sides have one reference and empty buffers |
| SocketBacklog.AcceptServesOldest | src/ert/enclave/internalsock.c:637-661 | accept connects the longest waiting client, and never aborts |
| SocketBacklog.ListenTakesBacklog | src/ert/enclave/internalsock.c:681-709 | a listener takes exactly the first max(backlog, 1) connections, in order, and refuses further ones |
| SocketStreams.StreamIntegrity | src/ert/enclave/internalsock.c:870-975 | bytes received followed by the buffer are the bytes accepted, a prefix of the data offered, and all of it once no send is in progress |
| SocketStreams.BlockedSenderMissesItsRest | src/ert/enclave/internalsock.c:957-968 | while a send of any size is split over waits, exactly its unwritten rest is missing from the stream |
| SocketStreams.SleepersHaveReason | src/ert/enclave/internalsock.c:902-967 | an unsignalled sleeping sender faces a full buffer, and an unsignalled sleeping receiver an empty one and a referenced peer |
| SocketStreams.SendRoundOutcome | src/ert/enclave/internalsock.c:953-968 | a round of a send fails exactly if the peer side is unreferenced, returns the whole length exactly if the rest fits, and otherwise sleeps; exactly what fits joins the stream |
| SocketStreams.RecvRoundOutcome | src/ert/enclave/internalsock.c:902-919 | a round of a receive sleeps, fails with EAGAIN, returns 0 or returns bytes exactly in the four cases of the source, and the number it returns is the growth of the received stream |
| SocketStreams.CallsAreRequests | src/ert/enclave/internalsock.c:870-955 | over every run a call in progress has the socket, data, count and blocking mode that its thread asked for |
| SocketStreams.SendSleepsExactly | src/ert/enclave/internalsock.c:953-968 | a send sleeps exactly if its peer is referenced and the free space is less than its rest, whatever the flags |
| SocketStreams.NonblockingNeverSleeps | src/ert/enclave/internalsock.c:899-907 | a nonblocking receive never sleeps |
| SocketStreams.NoMutualWait | src/ert/enclave/internalsock.c:902-967 | a sender and a receiver never wait for each other on one buffer |
| SocketStreams.EndOfStreamMeans | src/ert/enclave/internalsock.c:909-919 | a receive returns 0 only if all accepted bytes were received and the peer side has no reference |
| SocketStreams.EndOfStreamIsFinal | src/ert/enclave/internalsock.c:902-919 | every later receive on that side returns 0 as well |
| SocketProgress.CallsGoOn | src/ert/enclave/internalsock.c:275-975 | in every reachable state, a call in progress ends only by a round of its own and sleeps until a wake-up of its own; no other step changes what it will do |
| SocketProgress.CloseOutcome | src/ert/enclave/internalsock.c:549-600 | a close that does not fault takes away exactly its socket, frees its port, and frees exactly its pending connections, or its own once unreferenced |
| SocketProgress.SendCompletes | src/ert/enclave/internalsock.c:870-975 | from every reachable state a send of any size completes while another thread reads at the other end, which gets everything in order; no wake-up in this run is spurious |
| SocketStranded.WhoIsStranded | src/ert/enclave/internalsock.c:307-321 | a step leaves a sleeping call behind exactly if it closes the last socket of the side to which the call sends |
| SocketStranded.OnlySendsAreStranded | src/ert/enclave/internalsock.c:316-320 | no receiver is ever left behind |
| SocketStranded.StrandedForever | src/ert/enclave/internalsock.c:307-321 | a send that was left behind sleeps on until a spurious wake-up, whatever happens |
| SocketStranded.ListenerCloseFaults | src/ert/enclave/internalsock.c:562-568 | the run open, bind, listen, open, connect, close that faults |
| SocketStranded.PeerCloseStrandsSender | src/ert/enclave/internalsock.c:316-320 | a run in which closing the peer leaves a sender behind |
| ThreadQueue.Queue.PushBack | src/ertlibc/new_thread.cpp:90-106 | appends the thread at the back |
| ThreadQueue.Queue.PopFront | src/ertlibc/new_thread.cpp:108-125 | takes out the oldest thread, or nothing from an empty queue |
| ThreadQueue.Queue.Remove | src/ertlibc/new_thread.cpp:127-150 | takes the thread out from any place and keeps front, back, links and order; a thread not in the queue is left alone |
| ThreadLifecycle.QueueNeverRunsDry | src/ertlibc/pthread.cpp:183-188 | no host thread ever finds the queue empty: it has an entry for each thread still to enter, each creation in progress and each mismatched failure |
| ThreadLifecycle.OldestStartsFirst | src/ertlibc/new_thread.cpp:90-150 | over every run with pushes, pops and removals, a host thread takes the thread whose creation began first |
| ThreadLifecycle.AttributeRespected | src/ertlibc/pthread.cpp:75-105 | once pthread_create has returned, the thread is detached exactly if the attributes asked for it or somebody detached it |
| ThreadLifecycle.NoUseAfterDelete | src/ertlibc/pthread.cpp:183-209 | with clients that keep the rules, no deleted descriptor is used and no assertion fails |
| ThreadLifecycle.LiveWhileNeeded | src/ertlibc/pthread.cpp:60-132 | a descriptor exists while _thread_create, pthread_create or pthread_join needs it |
| ThreadLifecycle.DeletedOnce | src/ertlibc/pthread.cpp:202-206 | a descriptor is deleted at most once, exactly if its creation failed or its thread was released, and then it was detached or joined |
| ThreadLifecycle.StateOnlyAdvances | src/ertlibc/new_thread.h:10-16 | the state only moves from QUEUED over RUNNING and DONE to JOINED |
| ThreadLifecycle.StateMoves | src/ertlibc/new_thread.cpp:46-55 | each step keeps the state or moves it by one |
| ThreadLifecycle.JoinYieldsExitValue | src/ertlibc/pthread.cpp:110-155 | pthread_join yields the only value that the thread returned or passed to pthread_exit |
| ThreadLifecycle.FailedCreationIsSafeIffQueued | src/ertlibc/pthread.cpp:52-58 | a failed creation is harmless exactly if no thread has popped its descriptor in the meantime |
| ThreadLifecycle.SelfDetachIsSafeIffReturned | src/ertlibc/pthread.cpp:60-61 | a thread may detach itself without harm exactly if its creation has returned |
| ThreadProgress.ThreadIsReleased | src/ertlibc/pthread.cpp:183-209 | in every reachable state, a thread that was detached or whose join finished needs at most four steps of its own to delete its descriptor, which is deleted once |
| ThreadProgress.JoinFinishes | src/ertlibc/pthread.cpp:110-132 | once the thread is done, its join needs at most three steps of its own to return the value of its exit |
| ThreadProgress.JoinCanComplete | src/ertlibc/pthread.cpp:110-209 | from every state with a join in progress, the thread's and the joiner's own steps lead to the end of both and to one deletion |
| ThreadProgress.CreationCanReturn | src/ertlibc/pthread.cpp:40-108 | as long as the entry of every failed creation was still queued, each creation can return by steps of threads that were already requested |
| ThreadProgress.MismatchStrandsSomebody | src/ertlibc/pthread.cpp:52-61 | otherwise, whatever happens later, that many creations wait for a thread that nobody will serve |
| CancelHandshake.UpdatesOneFlag | src/ert/host/enclave_thread_manager.cpp:91-94 | each atomic update changes one flag and leaves the other alone |
| CancelHandshake.Record.SetCancelable | src/ert/host/enclave_thread_manager.cpp:83-99 | sets or clears Cancelable, and exits exactly if Canceling is set |
| CancelHandshake.Record.MarkCanceling | src/ert/host/enclave_thread_manager.cpp:150-151 | sets Canceling and tells whether pthread_cancel may be called |
| CancelHandshake.CancelHitsHostCode | src/ert/host/enclave_thread_manager.cpp:146-158 | pthread_cancel is never called on a thread that went back to enclave code |
| CancelHandshake.RequestedStaysOutside | src/ert/host/enclave_thread_manager.cpp:150-155 | a thread on which it was called never executes enclave code again |
| CancelHandshake.NoReturnOnceCanceling | src/ert/host/enclave_thread_manager.cpp:83-99 | once Canceling is set, no set_cancelable call of that thread returns |
| CancelHandshake.StepsAgreeWithRecord | src/ert/host/enclave_thread_manager.cpp:83-99 | the steps of the protocol change the flags as the updates of the record's bits do, and exit exactly when the record says so |
| CancelHandshake.ReturnsUnlessMarked | src/ert/host/enclave_thread_manager.cpp:83-99 | in every reachable state a set_cancelable call returns exactly if its thread is not marked, and ends the thread exactly if it is |
| CancelHandshake.OnlyMarkedOrFinishedEnd | src/ert/host/enclave_thread_manager.cpp:83-164 | over every run a thread ends only after its function returned or after it was marked |
| CancelHandshake.OcallComesBack | 3rdparty/openenclave/ert.patch:907-954 | an ocall of a thread that is not marked goes through both set_cancelable calls back into the enclave |
| CancelHandshake.PlainOcallComesBack | 3rdparty/openenclave/ert.patch:898-954 | an ocall without set_cancelable comes back to the same state, even for a marked thread |
| CancelHandshake.ReturningThreadEnds | src/ert/host/enclave_thread_manager.cpp:69-80 | a thread whose function returns sets its finished flag and ends, and changes nothing else |
| CancelHandshake.FinishedThreadIsSpared | src/ert/host/enclave_thread_manager.cpp:146-151 | a thread that finished before cancel_all_threads came to it is never marked or canceled |
| CancelHandshake.MarkedThreadStaysOut | src/ert/host/enclave_thread_manager.cpp:83-99 | once Canceling is set, the thread's next set_cancelable call is its end, whatever happens later |
| CancelHandshake.AllEndedOnReturn | src/ert/host/enclave_thread_manager.cpp:138-164 | when cancel_all_threads returns, every thread has ended |
| CancelHandshake.JoinedOcallEnds | src/ert/host/enclave_thread_manager.cpp:111-160 | while the manager joins a thread that is in an ocall, that thread ends by its own host steps, because it was woken if it was blocked |
| CancelHandshake.CancelAllCanReturn | src/ert/host/enclave_thread_manager.cpp:138-164 | from every reachable state cancel_all_threads can go on to its return, each thread ending by its own steps, at the latest in its next ocall |
| Clock.MonotonicClamp.EnsureMonotonic | src/ertlibc/time.cpp:48-59 | returns and remembers the later of the two timestamps |
| Clock.OneInside | src/ertlibc/time.cpp:70-90 | at most one call is between lock and unlock, and it holds the lock |
| Clock.ResultsAreRunningMax | src/ertlibc/time.cpp:61-164 | with each load and store of the shared maximum a step of its own, every result is the running lexicographic maximum of the accepted raw values, starting at (0, 0), in lock order |
| Clock.ResultsNeverDecrease | src/ertlibc/time.cpp:48-59 | the monotonic clock never goes backwards, for arbitrary host timestamps |
| Clock.ReadsAreNotTorn | src/ertlibc/time.cpp:136-152 | a vDSO read during which the counter does not wrap accepts only a pair that one kernel update published |
| Clock.AbortsExactly | src/ertlibc/time.cpp:41-46 | in every reachable state a step aborts the program exactly if it accepts a value whose nanoseconds are negative or make a second |
| Clock.FailedCallLeavesNoTrace | src/ertlibc/time.cpp:61-95 | a call whose ocall fails leaves the maximum alone, and the next call finds the lock free |
| Clock.AcceptedAsIs | src/ertlibc/time.cpp:136-154 | a value that does not abort is accepted unchanged, and a vDSO read is repeated exactly if the counter changed |
| Clock.NanosecondsInRange | src/ertlibc/time.cpp:41-46 | over every run the nanoseconds of every accepted value and of every result are in range |
| Clock.CallReturns | src/ertlibc/time.cpp:97-164 | from every reachable state in which the lock is free and the kernel quiet, a call returns the later one of the last result and the time last published, or supplied by the host, unless that is no time |

## Left out

Allocator and bitset

- Bytes that users write to their mapped pages, and the `prot` argument, which the code ignores.
- What a request whose end wraps does to the memory outside of the heap; addresses are taken modulo 2^64, although C leaves such an end undefined.
- Requests on heaps whose split does not work: all methods but `Init` require that it does, and `HeapSplit` says which heaps these are.

Futex

- The numeric operation codes, the values of timeouts, and that a relative timeout starts again after a spurious wake.
- A thread that removes another thread's queue entry: only a canceled thread removes its own.
- FutexProtocol.HostCounterBalance: does not model the wrap-around of the 32-bit counter, which needs 2^32 - 1 unconsumed tokens.
- A host that misbehaves, and other users of the same event, such as the thread wait of Open Enclave.

Sockets

- eventfd notifications and polling, addresses and options, byte counts above SSIZE_MAX, failures of memory allocation.
- Waiting inside accept: a call on an empty backlog is a step that changes nothing.
- Interleaving inside `_connection_remove`, and inside the drain of a backlog: each operation is one step.
- A socket that is closed while a call on it is in progress, and calls on sockets in the wrong state, which return an error and change nothing.
- SocketStreams.StreamIntegrity: the order of bytes is not claimed when two sends to one side overlap, because each wait gives up the lock and their data mixes.
- What happens after a fault: the write through the null pointer, and the lock of the connection that is never released.

Threads and cancelation

- pthread.cpp is modelled as a state machine on descriptor values, as its meaning lies in the interleaving; only the queue is modelled in place.
- The unlock of a descriptor's mutex by the joiner or the detaching thread, which is part of the step that changes the state.
- Joins and detaches that break POSIX otherwise (twice, both, or before creation returned by another thread), joins while the enclave exits, thread-local storage, in-enclave `pthread_cancel` and `pthread_testcancel`.
- ThreadLifecycle.NoUseAfterDelete: claims nothing for runs with a mismatched creation failure or an early self-detach, because the code does use deleted descriptors then.
- The manager's thread lists per enclave, and a thread that is created while all are canceled, whose `std::thread` is assigned outside the lock.
- Nested ecalls, and the lookup of the TCS of a thread that is to be woken.

Clock

- Clocks other than CLOCK_MONOTONIC, which have no state, and the initialization of the vDSO pointers.
- Clock.ReadsAreNotTorn: assumes that the 32-bit sequence counter does not wrap within one read, as the sequence lock itself does.

Other parts of the repository (file systems, system call dispatch, dynamic linking, eventfd, host glue)
are forwarding, table parsing or input and output, and would add only easy members.
