# Verified models of libevent and libco

This project models five components in Dafny and proves what their code is for:

- **evbuffer** (`libevent/buffer.c`): a byte queue kept as a linked list of chains, with a cached
  length and a pointer to the link to the last chain that holds data. Chains live in an explicit
  store, so a leaked chain, a chain freed twice or a freed chain that is still linked would show.
  Every run of the operations is proved to agree with plain byte strings.
- **libco** (`libco/co_routine.cpp`): the intrusive lists, the timing wheel, the event loop with its
  condition variables, and coroutines that share a stack buffer by copying.
- **Rate limiting** (`libevent/bufferevent_ratelim.c`, `libevent/bufferevent.c`, and the read and write
  callbacks of `libevent/bufferevent_sock.c`): token buckets with their 32-bit and 64-bit wrap-around,
  the suspend reasons of a bufferevent, and the try-lock protocol between a group and its members as a
  state machine over the steps of its threads.
- **evdns** (`libevent/evdns.c`): reading and writing compressed domain names (section 4.1.4 of
  RFC 1035), and the resolver's books: hash buckets of circular lists, a waiting queue, counters.
- **arc4random** (`libevent/arc4random.c`): the bound computed with 32-bit arithmetic, the absence of
  modulo bias, and the generator's permutation.

Objects that the source updates in place are classes (`EvBuffer`, `LinkStore`, `Timeout`, `Epoll`,
`Env`, `Bucket`, `Bev`, `LabelTable`, `RingStore`, `Base`, `Arc4`); loops are loops with invariants.
Pointers are integers into an explicit store where lists are rewired.

## Main results

1. `EvBufferRuns.Run`: whatever sequence of add, prepend, drain, remove, readln, pullup, expand,
   expand_fast, read, add_buffer, remove_buffer and prepend_buffer runs on two buffers, they hold what the
   same sequence makes of two byte strings, both keep the layout "data chains, then empty chains", and the
   store holds exactly their chains. `EvBufferRuns.Conservation` adds that no byte is lost or invented.
   The run stops only in front of a prepend_buffer that would break the layout.
2. `EvBufferPrependBuffer.PrependBuffer`: the bytes always come out right, but the layout survives if
   and only if the buffers are the same, one of them is empty, or the last chain of the source holds
   data. `EvBufferBroken.PrependBreaksLayout` builds the other case from fresh buffers, and
   `EvBufferBroken.RemovedOutOfOrder` shows what follows: remove_buffer then delivers bytes out of order.
3. `EvBufferSearch.SearchRange` and `EvBufferLines.ReadLn` refine the search for a first occurrence and
   the split at the first line end on plain strings, across chains and 128-byte chunks. The split is exact
   if and only if a run of CR and LF does not overflow the int that counts it; `LongRun` loses a byte.
4. `CoTimeout.Timeout.TakeAllTimeout` and its companions: the wheel is a queue sorted by expiry and first
   come first served among equal times, through wrap-around, the capped count and a clock that steps back.
   `DiffExact` and `CountExact` say exactly which distances the ints can hold.
5. `CoEventRuns.Run` and `CoEventRuns.EveryWait`: every run of polls, condition waits, signals, broadcasts,
   events, timeouts and resumptions takes the steps of a state machine, in which the waits begun are exactly
   those asked for and accepted (`RunStarted`) and each has been resumed exactly once or is on a list.
   `FirstComeFirstServed`: the wait at place k of the active list is resumed within k + 1 resumptions,
   whatever else happens. Every event finds a poll that waits if and only if no poll with a descriptor was
   refused (`EventsLive`); with timeout -1 one is (`WaitForever`).
6. `CoStack.Run`: over every run of computations, resumes and yields, each coroutine on shared stacks
   sees the bytes it would see on a stack of its own.
7. `RateRuns.RunWakes`: in every state of every run, a direction without tokens is suspended with its timer
   pending, if and only if no refill wraps a bucket that refunds have raised over its maximum;
   `WrapLosesWakeup` reaches such a refill. `RateBound.EveryWindow` and `RateMirror.EveryWindowWritten`:
   in any stretch of any run, k ticks of a clock that goes forward let through at most the maximum and k
   times the rate, in either direction. `RateExact` and
   `ClockStepsBack`: for other clocks, exactly when, and an input on which it is not so.
8. `RateGroup.NeverStranded`: no interleaving, with any outcome of the try-locks, leaves a member
   suspended in a group that will not look at it again.
9. `DnsRoundTrip.RoundTrip`: every sequence of names written with one table, with other data between
   them, that fits as compressed is read back by `DnsNames.NameParse`, which for its part succeeds exactly
   on the packets that spell a name with no more jumps than bytes. `DnsEncode.DnsnameToLabels` says exactly
   which names the encoder accepts, and for which of them it writes one byte behind its buffer.
10. `DnsRequests.Run`, `DnsRequests.NeverLost` and `DnsRequests.Exact`: over every run a request ends only
    by a reply to its own id, its last timeout or a cancellation; until then it is in flight or waits. The
    counters are the sizes of the lists, each request in flight is in the bucket of its id, and each
    nameserver's counter is exact.
11. `Arc4Random.NoBias`: every value below the bound has the same number of accepted 32-bit words.

## Model

| member | source | states |
|---|---|---|
| EvBufferCore.Store.ChainNew | libevent/buffer.c:155-192 | a fresh unlinked empty chain of the rounded-up capacity, or NULL exactly when the size is over the limit |
| EvBufferCore.ChainCapacity | libevent/buffer.c:155-192 | the power-of-two rounding never falls below the request nor over the maximum |
| EvBufferCore.Store.FreeAllChains | libevent/buffer.c:254-262 | frees exactly the chains of the list |
| EvBufferAdd.FreeTrailingEmptyChains | libevent/buffer.c:289-302 | frees exactly the empty chains behind the data, keeps the bytes, and returns the link where the list now ends |
| EvBufferAdd.ChainInsert | libevent/buffer.c:307-326 | the chain replaces the trailing empties, its bytes go to the end, and last and last_with_datap are right whether or not it holds data |
| EvBufferAdd.AlignHere | libevent/buffer.c:1902-1909 | realigning a chain moves its bytes and keeps contents and layout |
| EvBufferAdd.Add | libevent/buffer.c:1722-1817 | appends the data, keeps the layout and the ownership of chains; fails exactly when the length would overflow or the data is too large, and then changes no byte; into a buffer without chains it goes as one chain of the rounded-up capacity |
| EvBufferPrepend.Prepend | libevent/buffer.c:1819-1899 | puts the data in front; states exactly when it fails, and that it has then already put the part that fitted the first chain in front |
| EvBufferDrain.DropWholeChains | libevent/buffer.c:1122-1152 | frees the chains that are drained whole and moves last_with_datap when its chain goes |
| EvBufferDrain.Drain | libevent/buffer.c:1095-1161 | removes exactly the first min(len, length) bytes, frees the chains that became useless, keeps the layout |
| EvBufferPos.CopyOutFrom | libevent/buffer.c:1184-1249 | copies exactly the bytes from the position on, or fails exactly when the position overflows; the buffer is untouched |
| EvBufferLines.Remove | libevent/buffer.c:1164-1176 | copies and drains the same bytes; the count is truncated to int as in the source |
| EvBufferMove.CopyChain | libevent/buffer.c:869-881 | the destination takes over the whole list of the source |
| EvBufferMove.AppendChain | libevent/buffer.c:883-900 | hangs the source's chains behind the destination's data, contents concatenated, no chain lost |
| EvBufferMove.AddBuffer | libevent/buffer.c:960-1004 | the source's bytes go behind the destination's and the source is empty, chains conserved over both buffers; a buffer added to itself is unchanged |
| EvBufferMove.AdvanceWalk | libevent/buffer.c:702-716 | on any list of chains, the walk ends in front of the first empty chain behind its start, and counts its steps |
| EvBufferMove.AdvanceLastWithData | libevent/buffer.c:702-716 | on a valid layout, from any link at or before it, the walk ends at the link to the last chain with data |
| EvBufferMove.WholeWalk | libevent/buffer.c:1287-1299 | on any list of chains, finds the chain that holds the byte at datlen, the bytes before it, and resets last_with_datap when it is passed |
| EvBufferMove.WholeChains | libevent/buffer.c:1287-1299 | on a valid layout that chain has data, and last_with_datap is right for the rest of the list |
| EvBufferMove.MoveChains | libevent/buffer.c:1301-1318 | moves those chains to the destination; both buffers keep the layout |
| EvBufferMove.CopyRest | libevent/buffer.c:1320-1331 | copies the rest out of the chain that is split |
| EvBufferMove.RemoveBuffer | libevent/buffer.c:1254-1342 | exactly min(datlen, length) bytes move from the front of the source to the end of the destination, the rest stays, chains are conserved, both layouts are kept |
| EvBufferPrependBuffer.PrependChains | libevent/buffer.c:942-958 | splices the source in front; the bytes are right without any condition on the layout |
| EvBufferPrependBuffer.PrependBuffer | libevent/buffer.c:1049-1093 | contents are source then destination; the layout invariant holds afterwards if and only if the buffers are the same, one is empty, or the last chain of the source holds data |
| EvBufferBroken.PrependBreaksLayout | libevent/buffer.c:942-1093 | from fresh buffers, by add, expand_fast and prepend_buffer: a buffer with the bytes 7 9 8 6 and an empty chain behind the first, for which no position of the data boundary satisfies the invariant |
| EvBufferBroken.PutAt | libevent/buffer.c:1722-1782 | on any list, added bytes that fit go behind those of the chain that last_with_datap leads to, which may be in the middle |
| EvBufferBroken.RemoveFrom | libevent/buffer.c:1254-1342 | on any list, what remove_buffer delivers into an empty buffer: the part that is copied goes where the walk from the first chain stops |
| EvBufferBroken.InOrder | libevent/buffer.c:1254-1342 | that is the front of the contents when no data follows an empty chain among those moved |
| EvBufferBroken.RemovedOutOfOrder | libevent/buffer.c:942-1342 | removing three bytes from that buffer into a new one delivers 7 8 9, not 7 9 8 |
| EvBufferPullup.PullLoop | libevent/buffer.c:1414-1428 | gathers whole chains into the holder and frees them, noting whether the last chain with data is among them |
| EvBufferPullup.PullPartial | libevent/buffer.c:1430-1447 | takes the rest out of the chain that stays and re-points last_with_datap in each of its cases |
| EvBufferPullup.Pullup | libevent/buffer.c:1344-1454 | contents unchanged and the first chain holds at least size bytes; NULL exactly when the size is zero, more than there is, or too large for a chain, and then nothing changed |
| EvBufferScan.FindEolChar | libevent/buffer.c:1488-1513 | the scan in chunks of 128 bytes finds the first CR or LF |
| EvBufferScan.FindFrom | libevent/buffer.c:1466-1535 | across chains, finds the first wanted byte at or after the position |
| EvBufferScan.Strspn | libevent/buffer.c:1537-1574 | counts the longest run of the given bytes from the position on, in an int that wraps around |
| EvBufferScan.GetChr | libevent/buffer.c:1577-1587 | the byte at the position |
| EvBufferScan.PtrWalk | libevent/buffer.c:2638-2654 | the walk from a chain lands on the chain and offset that denote the target |
| EvBufferScan.PtrSet | libevent/buffer.c:2609-2659 | sets or advances a position; succeeds exactly up to the length, and the chain and offset denote that position |
| EvBufferScan.PtrSubtract | libevent/buffer.c:2589-2607 | steps a position back, or fails exactly when it would pass the start |
| EvBufferSearch.PtrMemcmp | libevent/buffer.c:2665-2699 | zero exactly when the string occurs at the position, across chains |
| EvBufferSearch.SearchRange | libevent/buffer.c:2707-2769 | the least position at or after start where the string occurs and ends by end, or not found when there is none; chain and offset denote it |
| EvBufferLines.SearchEol | libevent/buffer.c:1589-1677 | the first line end of each of the five styles, and its length, reported for a run of CR and LF as the int count converted to size_t |
| EvBufferLines.EolUnique | libevent/buffer.c:1589-1677 | there is only one such line end, given by a function on strings |
| EvBufferLines.ReadLn | libevent/buffer.c:1679-1716 | line, line end and rest are the old contents, split at the first line end of the style; the rest is what remains if and only if the line end is not a run of more than INT_MAX bytes, or the wrapped count empties a buffer with nothing behind it; without a line end the buffer is unchanged |
| EvBufferLines.DrainExact | libevent/buffer.c:1537-1716 | for which lengths of the line end the reported length drains exactly it |
| EvBufferLines.LongRun | libevent/buffer.c:1537-1716 | 2^31 line feeds and a letter, added to a fresh buffer: reading an empty line loses the letter |
| EvBufferExpand.Resize | libevent/buffer.c:1999-2023 | the chain is replaced by a larger copy in place and last_with_datap and last follow |
| EvBufferExpand.ExpandSingleChain | libevent/buffer.c:1927-2035 | contents unchanged and the returned chain, where the next bytes would go, has the space; NULL exactly when datlen is over the limit of a chain, or a chain worth resizing and the new bytes miss that limit by less than the chain header; then nothing changed |
| EvBufferRead.CountSpace | libevent/buffer.c:2060-2085 | counts the free bytes of the first chains with space, up to n of them or until they are enough |
| EvBufferRead.AddEmptyChain | libevent/buffer.c:2090-2104 | adds one empty chain so that the space is there |
| EvBufferRead.NukeEmptyChains | libevent/buffer.c:2105-2146 | replaces the empty chains by one that is large enough; fails exactly when what the space behind the data lacks is too much for a chain |
| EvBufferRead.ExpandFast | libevent/buffer.c:2039-2147 | contents unchanged and at least datlen free bytes within the first n chains that have space; the last chain with data stays as it is, and an empty chain follows it when it has too little space; fails exactly when the usable chains offer too little and what is missing is too much for a new chain |
| EvBufferRead.ReadSetupVecs | libevent/buffer.c:2213-2247 | the vectors are the free space of consecutive chains from the first with room on, never past the list, and sum to at least howmuch |
| EvBufferRead.Readv | libevent/buffer.c:2303-2336 | the bytes delivered fill the vectors in order without touching the contents |
| EvBufferRead.CommitLoop | libevent/buffer.c:2366-2391 | appends exactly the bytes read, in vector order, and lands last_with_datap on the last chain with data |
| EvBufferRead.ReadSize | libevent/buffer.c:2291-2295 | how many bytes a read asks for |
| EvBufferRead.Read | libevent/buffer.c:2270-2399 | the bytes the socket delivers are appended, or nothing on an error |
| EvBufferRuns.Run | libevent/buffer.c:960-2399 | every run on two buffers agrees with the run on two byte strings, keeps both layouts, and leaks or double-frees no chain; it stops only in front of a prepend_buffer that would break the layout |
| EvBufferRuns.Conservation | libevent/buffer.c:960-1342 | over every run the bytes held and removed are those held before and those brought in |
| CoLinks.LinkStore.AddTail | libco/co_routine.cpp:205-224 | the item goes to the end of the list; no effect when it is on one already |
| CoLinks.LinkStore.RemoveFromLink | libco/co_routine.cpp:163-202 | the item leaves its list, wherever in it, and all other lists stay |
| CoLinks.LinkStore.PopHead | libco/co_routine.cpp:226-249 | the first item leaves the list |
| CoLinks.LinkStore.Join | libco/co_routine.cpp:253-280 | the items of one list go behind those of the other, in order, and name their new list |
| CoLinks.OnOneList | libco/co_routine.cpp:163-280 | no item is on two lists |
| CoTimeout.Timeout.AddTimeout | libco/co_routine.cpp:442-489 | inserts the item into the queue behind those that expire no later; each refusal exactly when its check fails, and then the queue is unchanged; for every distance that DiffFits allows |
| CoTimeout.Timeout.TakeAllTimeout | libco/co_routine.cpp:498-534 | the result gets exactly the expired items in queue order and the wheel keeps the others, also when the count is capped, the index wraps or the clock stepped back; for every distance that CountFits allows |
| CoTimeout.CountExact | libco/co_routine.cpp:512-523 | the int count of slots is right if and only if CountFits |
| CoTimeout.DiffExact | libco/co_routine.cpp:470-479 | the int distance tells right whether an item is on the wheel if and only if DiffFits |
| CoTimeout.DiffFails | libco/co_routine.cpp:442-489 | a wheel and a wait of INT_MAX milliseconds one millisecond after its start: the checks let it pass, and the slot computed is in front of the first |
| CoTimeout.CountFails | libco/co_routine.cpp:512-523 | a wheel with an item whose time is up and a clock 2^31 - 1 milliseconds after its start: the count of slots is negative |
| CoTimeout.Timeout.Unlink | libco/co_routine.cpp:163-202 | removing an item from its list removes it from the queue and nothing else |
| CoTimeout.QueueSorted | libco/co_routine.cpp:399-412 | the slots read from the start are one queue in order of expiry |
| CoTimeout.InsertExact | libco/co_routine.cpp:481-487 | what inserting means: the item is behind exactly the items that expire no later, and the order is kept |
| CoTimeout.DueExact | libco/co_routine.cpp:498-534 | what taking means: the queue is split into the expired front and the rest |
| CoTimeout.TakenDue | libco/co_routine.cpp:511-531 | the slots that are taken hold exactly the expired items, also in the capped case |
| CoTimeout.TakenInv | libco/co_routine.cpp:524-533 | after the start has moved, every remaining item is still in the slot of its expiry |
| CoEventLoop.Epoll.Prepare | libco/co_routine.cpp:938-962 | the first event of a poll moves it from the wheel to the end of the active list, later ones do nothing |
| CoEventLoop.Epoll.PollWait | libco/co_routine.cpp:1137-1256 | a poll with its capped timeout joins the queue, or is refused exactly when the timeout is negative, the clock is behind, or it is too far ahead; its descriptors stay registered in either case |
| CoEventLoop.Epoll.CondWait | libco/co_routine.cpp:1444-1465 | the waiter goes to the end of the condition's queue, and to the wheel only with a time limit |
| CoEventLoop.Epoll.Signal | libco/co_routine.cpp:1404-1418 | the longest waiter leaves the condition and the wheel and goes to the end of the active list, even if it had timed out but not run |
| CoEventLoop.Epoll.Broadcast | libco/co_routine.cpp:1423-1436 | all waiters are activated in the order in which they waited |
| CoEventLoop.Epoll.TakeTimeouts | libco/co_routine.cpp:1015-1032 | exactly the expired items are marked and go behind the active ones |
| CoEventLoop.Epoll.Process | libco/co_routine.cpp:1034-1051 | the first active wait ends: it is resumed, leaves every list, is deregistered and freed, and a poll gets the number of its events |
| CoEventLoop.Epoll.Drain | libco/co_routine.cpp:1034-1051 | the loop over the active list resumes exactly its waits, in order |
| CoEventLoop.Epoll.Turn | libco/co_routine.cpp:1012-1051 | a wait on the wheel whose time is up is resumed by the next turn of the loop |
| CoEventRuns.EventsLive | libco/co_routine.cpp:985-1010 | in every state, each event that epoll can report is for a poll that waits if and only if no poll with a descriptor has been refused |
| CoEventRuns.Take | libco/co_routine.cpp:938-1472 | every step of the loop has exactly the effect of the step of the state machine on the wheel, the active list, the conditions, the counts and the registrations |
| CoEventRuns.Run | libco/co_routine.cpp:938-1472 | every run ends in the state that its steps, one after the other, make of the first; it goes through unless an event is reported for a refused poll, whose item is freed |
| CoEventRuns.RunStarted | libco/co_routine.cpp:938-1472 | over every run, the waits begun are exactly those begun before and those that a step asked for and AddTimeout took, and the polls refused with a descriptor exactly those it did not take |
| CoEventRuns.RunResumed | libco/co_routine.cpp:1034-1051 | over every run, exactly the resuming steps resume, each the first wait on the active list |
| CoEventRuns.RunGood | libco/co_routine.cpp:938-1472 | every state of every run is good: each wait is where it should be, its timeout item on one list at most, on one condition at most |
| CoEventRuns.EveryWait | libco/co_routine.cpp:938-1472 | after every run, a wait that has begun has been resumed exactly once and is on no list, or is on the wheel, the active list or, if it is no poll, a condition variable |
| CoEventRuns.NewGood | libco/co_routine.cpp:1073-1087 | a loop in which nothing has begun is good |
| CoEventRuns.FirstComeFirstServed | libco/co_routine.cpp:1034-1051 | whatever else happens in between, the wait at place k of the active list is resumed by the first k + 1 resuming steps, unless a step moves it to the end |
| CoEventRuns.WokenSettled | libco/co_routine.cpp:938-962 | an event, signal or broadcast that moves a wait settles it |
| CoEventRuns.SettledStays | libco/co_routine.cpp:938-962 | a settled wait is moved by no step, and stays settled until it is resumed |
| CoEventRuns.TimedOutActive | libco/co_routine.cpp:1012-1032 | a wait on the wheel whose time is up becomes active and is marked |
| CoEventRuns.WaitForever | libco/co_routine.cpp:1137-1256 | in any state, a poll of one descriptor with timeout -1 leaves an event that finds a freed item |
| CoEventLoop.ExactlyOnce | libco/co_routine.cpp:938-1472 | a wait has been resumed exactly once, or still waits on a list; a poll is always on a list of timeout items, and no timeout item is on two |
| CoStack.Env.constructor | libco/co_routine.cpp:889-917 | the main coroutine runs on its own stack |
| CoStack.Env.Create | libco/co_routine.cpp:564-630 | a new coroutine on a stack of its own or a shared one disturbs nobody |
| CoStack.Env.SaveStackBuffer | libco/co_routine.cpp:737-754 | the bytes from stack_sp up are in the save buffer |
| CoStack.Env.GiveTo | libco/co_routine.cpp:779-801 | the stack gets its new occupant and the old one is saved |
| CoStack.Env.SwapOut | libco/co_routine.cpp:763-804 | up to the context switch, every coroutine but the pending one keeps its bytes, in place or saved |
| CoStack.Env.SwapIn | libco/co_routine.cpp:811-824 | after it, the coroutine that regains control has its bytes in place |
| CoStack.Env.Swap | libco/co_routine.cpp:763-824 | a whole switch keeps the invariant, for a coroutine that starts and for one that goes on |
| CoStack.Env.Resume | libco/co_routine.cpp:678-698 | pushes the coroutine on the call stack and leaves every coroutine its bytes |
| CoStack.Env.Yield | libco/co_routine.cpp:706-721 | pops it and leaves every coroutine its bytes |
| CoStack.Env.Live | libco/co_routine.cpp:763-824 | the running coroutine sees the bytes it would see on its own stack |
| CoStack.RunOne | libco/co_routine.cpp:678-824 | one step on shared stacks is the step on private stacks |
| CoStack.Run | libco/co_routine.cpp:678-824 | every run on shared stacks is the run on private stacks, including what the computations read |
| TokenBucket.CfgNew | libevent/bufferevent_ratelim.c:142-173 | accepts exactly rates of at least 1 that do not exceed the burst, all within the limit; a tick is a second or the given time in milliseconds modulo 2^32 |
| TokenBucket.TickOfNoLength | libevent/bufferevent_ratelim.c:126-173 | the accepted configurations by whose tick the clock would divide by zero: ticks below a millisecond, and multiples of 2^32 milliseconds |
| TokenBucket.TickShown | libevent/bufferevent_ratelim.c:126-140 | the tick counter is the number of ticks since the epoch modulo 2^32 |
| TokenBucket.TicksGoForward | libevent/bufferevent_ratelim.c:126-140 | that number goes forward with the time |
| TokenBucket.RefillExact | libevent/bufferevent_ratelim.c:94-106 | the refill that avoids overflow is min(maximum, limit + n * rate) for every limit up to the maximum, debts included |
| TokenBucket.RefilledOver | libevent/bufferevent_ratelim.c:94-106 | for a limit over the maximum, the result in each of the four ranges of the sum of limit and amount |
| TokenBucket.RefillOver | libevent/bufferevent_ratelim.c:94-106 | the refill brings a limit over the maximum back to it if and only if n * rate is at least 2^64 - (limit - maximum) |
| TokenBucket.RefillOverGrows | libevent/bufferevent_ratelim.c:94-106 | a limit over the maximum grows if and only if the sum fits ev_ssize_t, and is then that sum |
| TokenBucket.RefillSign | libevent/bufferevent_ratelim.c:94-106 | a refill takes a positive limit to zero or below if and only if the limit is over the maximum and the sum is over SSIZE_MAX and at most 2^64 |
| TokenBucket.Bucket.Init | libevent/bufferevent_ratelim.c:49-71 | a new bucket starts with one tick's worth |
| TokenBucket.Bucket.Reinit | libevent/bufferevent_ratelim.c:49-71 | a bucket in use is only clipped, and keeps its sign and its time |
| TokenBucket.Bucket.Update | libevent/bufferevent_ratelim.c:73-111 | refills for the elapsed ticks of the wrapping counter, and ignores none and a step back |
| RateLimit.Bev.SuspendRead | libevent/bufferevent.c:66-76 | adds the reason; the backend reads exactly when enabled with no reason against it |
| RateLimit.Bev.UnsuspendRead | libevent/bufferevent.c:78-88 | removes the reason, with the same equivalence |
| RateLimit.Bev.SuspendWrite | libevent/bufferevent.c:90-100 | adds the reason, with the same equivalence for writing |
| RateLimit.Bev.UnsuspendWrite | libevent/bufferevent.c:102-112 | removes the reason, with the same equivalence for writing |
| RateLimit.Bev.Enable | libevent/bufferevent.c:461-482 | enables directions without overriding a suspension |
| RateLimit.Bev.Disable | libevent/bufferevent.c:552-565 | disables directions and keeps the reasons |
| RateLimit.Bev.UpdateBuckets | libevent/bufferevent_ratelim.c:113-124 | brings the bucket up to the tick and changes nothing else, at every tick |
| RateLimit.Bev.GetRlimMax | libevent/bufferevent_ratelim.c:197-258 | brings the bucket up to the tick, holds a direction whose group is suspended, and allows the tokens there are but no more than an equal share of the group's tokens or its least share |
| RateLimit.RlimMax | libevent/bufferevent_ratelim.c:197-258 | never more than the tokens nor than the share |
| RateLimit.Bev.DecrementReadBuckets | libevent/bufferevent_ratelim.c:272-294 | takes the bytes off and suspends exactly without tokens, the timer following both directions |
| RateLimit.Bev.DecrementWriteBuckets | libevent/bufferevent_ratelim.c:310-332 | likewise for writing |
| RateLimit.Bev.DecrementReadLimit | libevent/bufferevent_ratelim.c:971-996 | charges or refunds, and suspends or resumes when the limit crosses zero |
| RateLimit.Bev.DecrementWriteLimit | libevent/bufferevent_ratelim.c:998-1025 | likewise for writing |
| RateLimit.Bev.RefillCallback | libevent/bufferevent_ratelim.c:393-439 | at every tick, a suspended direction goes on exactly when it has tokens, and the timer is pending again exactly while one has none |
| RateLimit.Bev.ReadCallback | libevent/bufferevent_sock.c:156-236 | reads what is wanted within the allowance, nothing while suspended, and charges it |
| RateLimit.Bev.WriteCallback | libevent/bufferevent_sock.c:239-363 | likewise for writing |
| RateLimit.Bev.SetRateLimit | libevent/bufferevent_ratelim.c:559-636 | installs, replaces or removes a configuration; suspended exactly without tokens |
| RateRuns.Run | libevent/bufferevent_ratelim.c:73-1025 | every run on a bufferevent takes the steps of the state machine over its value, and reads and writes the bytes that says |
| RateRuns.RefreshWakes | libevent/bufferevent_ratelim.c:94-106 | a refill keeps the wake-up invariant if and only if it does not wrap the bucket of an unsuspended direction |
| RateRuns.StepWakes | libevent/bufferevent_ratelim.c:197-1025 | an operation keeps it if and only if its refill does not wrap |
| RateRuns.RunWakes | libevent/bufferevent_ratelim.c:73-1025 | over every run: in every state a direction without tokens is suspended and a suspended one has its timer, if and only if no step wraps |
| RateRuns.NoRefundWakes | libevent/bufferevent_ratelim.c:73-1025 | without refunds there is no lost wake-up in any run |
| RateRuns.WrapLosesWakeup | libevent/bufferevent_ratelim.c:94-1025 | set_rate_limit, a refund to near the largest ev_ssize_t and one tick leave a bufferevent in debt, not suspended and without a timer |
| RateBound.StepPays | libevent/bufferevent_ratelim.c:73-1025 | what one operation reads and leaves is within the tokens before it and those of the ticks credited |
| RateBound.RunPays | libevent/bufferevent_ratelim.c:73-1025 | whatever the clock does, a run reads at most the maximum and the rate for the ticks credited after its first look at the clock |
| RateBound.ForwardCredit | libevent/bufferevent_ratelim.c:78-85 | a clock that goes forward credits no more ticks than pass, whenever the bucket was last updated |
| RateBound.EveryWindow | libevent/bufferevent_ratelim.c:73-1025 | between any two operations of any run, with reads, writes, refill callbacks, charges, enabling and disabling interleaved: at most readMaximum + k * readRate bytes are read in k ticks of a clock that goes forward |
| RateBound.RateExact | libevent/bufferevent_ratelim.c:73-294 | for given ticks and last update, that bound holds for every configuration, state and run at these ticks if and only if at most k ticks are credited |
| RateBound.ClockStepsBack | libevent/bufferevent_ratelim.c:78-85 | a bufferevent, from its creation on, that reads twice its maximum within one tick, when a clock that was 2^31 ticks ahead steps back by one |
| RateMirror.FlipStep | libevent/bufferevent_ratelim.c:73-1025 | the operations treat reading and writing alike: exchanging the directions before or after a step is the same |
| RateMirror.EveryWindowWritten | libevent/bufferevent_ratelim.c:73-1025 | between any two operations of any run, at most writeMaximum + k * writeRate bytes are written in k ticks of a clock that goes forward |
| RateGroup.StepKeeps | libevent/bufferevent_ratelim.c:348-810 | every step of every thread keeps: a member that is held or about to be is watched |
| RateGroup.RunKeeps | libevent/bufferevent_ratelim.c:348-810 | the invariant holds in every state of every run |
| RateGroup.NeverStranded | libevent/bufferevent_ratelim.c:487-557 | when the group lock is free, a held bufferevent is in a group that is suspended or has its pending flag set, or is just being removed |
| RateGroup.RefillRetries | libevent/bufferevent_ratelim.c:528-557 | the refill callback then starts a loop that has the member ahead of it |
| RateGroup.RefillFrees | libevent/bufferevent_ratelim.c:487-504 | a loop that gets every lock leaves no member held and nothing pending |
| RateGroup.VisitOrder | libevent/bufferevent_ratelim.c:474-485 | the traversal from a random start visits every member exactly once |
| DnsNames.NameParse | libevent/evdns.c:959-1013 | succeeds exactly when the packet spells a name with at most length jumps that fits the output, returns that name and the offset behind it, and stays within both buffers on every packet |
| DnsNames.WalkUnique | libevent/evdns.c:976-1000 | the bytes of a packet spell at most one name at an offset |
| DnsEncode.JoinLabels | libevent/evdns.c:1588-1598 | the labels of a name without a final dot joined by dots are the name |
| DnsEncode.LabelTable.GetPos | libevent/evdns.c:1559-1568 | finds the string if it is in the table |
| DnsEncode.LabelTable.Add | libevent/evdns.c:1571-1586 | adds an entry, or nothing to a full table |
| DnsEncode.PutPointer | libevent/evdns.c:1626-1629 | a pointer to a known string ends the name |
| DnsEncode.PutNext | libevent/evdns.c:1641-1653 | a label in front of a dot and its table entry leave the rest to be written |
| DnsEncode.PutLast | libevent/evdns.c:1631-1659 | the last label and its terminator, written wherever it falls, end the name and all entries made on the way |
| DnsEncode.DnsnameToLabels | libevent/evdns.c:1599-1663 | what was there is untouched, the name and every table entry can be read from what was written, the returned offset is its end and counts a pointer for the longest part already known, the table is exactly TableAfter; a name of at most 255 bytes with short labels succeeds if and only if it fits or overruns, and the byte behind the buffer is written if and only if it overruns: no part of it is known, its last label is not empty, and it is one byte too long |
| DnsEncode.OverrunByOne | libevent/evdns.c:1631-1659 | the name a in a buffer of two bytes: the third is written |
| DnsEncode.RequestFits | libevent/evdns.c:1665-1704 | a question never overruns the buffer that evdns_request_len asks for |
| DnsEncode.WalkMono | libevent/evdns.c:1599-1663 | writing behind a name does not change it |
| DnsRoundTrip.WriteAll | libevent/evdns.c:1890-1985 | succeeds exactly when the names, compressed against the growing table, and the data between them fit; every name written can then be read, whatever follows |
| DnsRoundTrip.RoundTrip | libevent/evdns.c:959-1663 | every sequence of names sharing a table, with data between, that fits as compressed is read back name by name, each ending where its encoding ends |
| DnsRoundTrip.TwiceByPointer | libevent/evdns.c:1599-1663 | a name written twice takes two bytes the second time |
| DnsRings.RingStore.Insert | libevent/evdns.c:2721-2735 | the node goes to the tail of the ring and no other node changes |
| DnsRings.RingStore.Remove | libevent/evdns.c:2683-2718 | the node leaves the ring wherever it is, the head following, and no other ring changes |
| DnsRequests.Base.FindFromTransId | libevent/evdns.c:468-483 | the request in flight with this id, or NULL exactly when none has it |
| DnsRequests.Base.NameserverPick | libevent/evdns.c:1334-1367 | the first nameserver that is up in ring order, which moves behind it; any one when none is up; none exactly when there is none |
| DnsRequests.Base.TransactionIdPick | libevent/evdns.c:1317-1329 | an id that is not reserved and that no request in flight has |
| DnsRequests.Base.Submit | libevent/evdns.c:2824-2842 | into flight with a nameserver, to the end of the queue without |
| DnsRequests.Base.Resolve | libevent/evdns.c:2747-2842 | into flight exactly when there is room and a nameserver |
| DnsRequests.Base.Promote | libevent/evdns.c:752-764 | the request leaves the queue for the bucket of a fresh id, with its nameserver, and no other request changes |
| DnsRequests.Base.PumpOne | libevent/evdns.c:744-768 | the longest waiting request gets a nameserver, an id and its bucket |
| DnsRequests.Base.Pump | libevent/evdns.c:742-770 | a front part of the queue goes into flight, until the places, the queue or the nameservers are used up |
| DnsRequests.Base.FinishInflight | libevent/evdns.c:648-706 | the request is gone from its bucket and the counters, and waiting ones move up |
| DnsRequests.Base.FinishWaiting | libevent/evdns.c:648-706 | likewise for a request that waits |
| DnsRequests.Base.SwapNs | libevent/evdns.c:544-553 | the request changes its nameserver and nothing else changes |
| DnsRequests.Base.SetMaxInflight | libevent/evdns.c:3386-3415 | every request in flight is found in its new bucket |
| DnsRequests.Base.AddServer | libevent/evdns.c:2542-2555 | a new nameserver, up and without requests, behind the head of the ring |
| DnsRequests.Base.ServerUp | libevent/evdns.c:617-636 | the count of good nameservers follows their states |
| DnsRequests.Base.ServerFailed | libevent/evdns.c:557-615 | what was assigned to the failed nameserver and not sent goes to nameservers that are up, if there is one, and nothing else changes |
| DnsRequests.Base.Reissue | libevent/evdns.c:714-735 | the request gets another nameserver and counts as unsent, or keeps its own and is not reissued |
| DnsRequests.Exact | libevent/evdns.c:648-770 | the counters equal the list sizes, buckets are by id, waiting requests have no nameserver, each nameserver's counter is the number of its requests in flight |
| DnsRequests.Cancel | libevent/evdns.c:2845-2877 | whichever list it is on, exactly this request is gone, and no other is lost |
| DnsRequests.Base.CountTimeout | libevent/evdns.c:2188-2192 | a nameserver that has timed out more often than allowed has failed, and its count starts again |
| DnsRequests.TimeOut | libevent/evdns.c:2160-2196 | a timeout after the last allowed transmission ends exactly this request and fails its nameserver; an earlier one ends none |
| DnsRequests.BadReply | libevent/evdns.c:890-903 | a bad reply ends the request of its id if it has been reissued as often as allowed; otherwise it fails the nameserver and moves the request, or ends it when there is no other; no other request ends |
| DnsRequests.Run | libevent/evdns.c:468-3415 | every run of resolves, transmissions, replies, timeouts, cancellations, pumps, resizes and changes of nameservers keeps the books and every request on a list, and has a history in which a request begins only by being resolved and ends only by a reply to its own id, its last timeout or a cancellation, and keeps its id while in flight |
| DnsRequests.NeverLost | libevent/evdns.c:468-3415 | in every history, a request that is there and later gone was ended in between by one of these |
| DnsRequests.NeverInvented | libevent/evdns.c:468-3415 | and one that is there at the end and not at the start was resolved |
| DnsRequests.Accounts | libevent/evdns.c:468-3415 | so the requests at the end are those at the start and those resolved, without those ended by a reply to their own id, their last timeout or a cancellation |
| DnsRequests.SameId | libevent/evdns.c:468-3415 | and the id under which it is answered is the one it was sent with |
| Arc4Random.MinExact | libevent/arc4random.c:530-540 | both 32-bit formulas compute 2^32 mod the bound |
| Arc4Random.NoBias | libevent/arc4random.c:522-555 | each value below the bound has exactly floor(2^32 / bound) accepted words |
| Arc4Random.Uniform | libevent/arc4random.c:522-555 | returns the first accepted word modulo the bound |
| Arc4Random.Arc4.constructor | libevent/arc4random.c:96-105 | the identity permutation |
| Arc4Random.Arc4.AddRandom | libevent/arc4random.c:107-122 | the key schedule of 256 steps keeps a permutation of all bytes and leaves both indices one below where i was |
| Arc4Random.Arc4.GetByte | libevent/arc4random.c:425-437 | one step of the generator, which keeps the permutation, and the byte it selects |
| Arc4Random.EveryByte | libevent/arc4random.c:78-82 | every byte value is in the state at all times |
| Arc4Random.StepBack | libevent/arc4random.c:425-437 | a step can be taken back |
| Arc4Random.BackStep | libevent/arc4random.c:425-437 | every state is reached by a step, so the generator permutes its states |

## Left out

- Allocation failure, reference-counted, pinned, multicast and file chains, frozen buffers, callbacks and locks of evbuffers.
- evbuffer_reserve_space and evbuffer_commit_space: handing out space and committing it later; the read path has the same two halves.
- evbuffer_write, evbuffer_peek, printf helpers and references: reading the chains without changing them, or sharing memory.
- EvBufferMove.AddBuffer: the lengths of the two buffers, whose bytes are in memory at the same time, add up to a size_t.
- EvBufferMove.RemoveBuffer: likewise.
- EvBufferBroken.PutAt: only data that the chain has room for.
- EvBufferBroken.RemoveFrom: into an empty buffer, when the first chain moves whole and the chains have room for the part that is copied; other states of a broken layout are not followed.
- EvBufferScan.Strspn: the count wraps around where C leaves the overflow of an int undefined.
- EvBufferRead.Read: which bytes the socket delivers is a parameter, and so is what the kernel says is readable.
- EvBufferRead.ExpandFast: as in the source, only for at least two chains.
- CoTimeout.Timeout.TakeAllTimeout: after a clock distance that its int cannot hold (`CountExact` says which) the wheel is not followed.
- CoTimeout.Timeout.AddTimeout: likewise for the distance of the expiry time (`DiffExact`); times are not negative.
- CoEventRuns.Run: the run ends where an event is reported for a freed item. A descriptor belongs to one poll, and the user does not close it while it is registered.
- CoEventLoop.Epoll.Drain: the coroutines it resumes add nothing to the active list; `CoEventRuns.FirstComeFirstServed` is without that.
- CoEventLoop.Epoll.Turn: likewise.
- CoEventLoop.ExactlyOnce: a wait is known by the identity of its item; a coroutine resumed by somebody else than the event loop is not modelled, nor are items without a prepare function.
- Registers, assembly and bytes below stack_sp: a context switch is a transfer of control with the stack pointer.
- CoStack.Env.Resume: a coroutine that has ended, or was released, is not resumed.
- RateRuns.Run: event_add succeeds; a charge or refund that would overflow ev_ssize_t, which C leaves undefined, is skipped.
- RateBound.EveryWindow: a refund or another configuration begins a new stretch.
- RateGroup.StepKeeps: one direction; the other has its own flags and the same steps. Destroying a bufferevent that is still suspended is not a step.
- RateLimit.Bev.GetRlimMax: what the group holds is a parameter; its bucket arithmetic is that of a single bucket.
- DnsEncode.DnsnameToLabels: buffers within the 14-bit reach of pointers; memory for table entries is there.
- DnsRoundTrip.RoundTrip: names with an empty label, which the encoder writes as an early end, are not among the names read back.
- DnsRoundTrip.WriteAll: the numbers of a packet and its truncation to 512 bytes are data like any other.
- DnsRequests.Base.TransactionIdPick: the random source yields every id again and again; the links of the ring of nameservers are a sequence.
- DnsRequests.Run: whether a packet goes out, and which server errors a reply carries, is part of the operation; the limits do not change during the run.
- Search lists, probing, sockets, resolv.conf and hosts parsing of evdns.
- Arc4Random.Uniform: the words are a parameter, one of which is accepted at some time; seeding and stirring are left out.
- All other projects in the repository, system-call backends, OpenSSL bufferevents, and Windows code.
