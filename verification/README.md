# A verified model of libevent's core

libevent is the event library that the application carries under `app/src/main/cpp/libevent`. This
project models the parts of it that are hardest to get right and proves, for all inputs and for runs
of any length, that they do what their comments and callers rely on.

## What is modelled

**evbuffers** (`Segments`, `BufferCallbacks`, `Memory`, `Evbuffer`, `EvbufferMove`,
`EvbufferPullup`, `EvbufferReserve`, `EvbufferCommit`, `EvbufferRead`, `EvbufferSearch`,
`EvbufferRuns`, `EvbufferCorners`). A buffer is a linked list of chains with three cached facts: the
tail, the total length, and `last_with_datap`, a pointer to whatever pointer leads to the last chain
with data. Chains live in an explicit memory that maps addresses to records; freeing removes the
record, so an access to a freed chain cannot be verified. The methods relink chains and retarget
`last_with_datap` as the C code does. Each is proved against the flat byte sequence (`Contents`),
against the invariant of the list (`Valid`), and against the rest of memory (`Confined`: the old
chains of the buffer are replaced by its new ones, and nothing else changes). `EvbufferRuns` puts
any number of operations on two buffers together: the contents are those of the same run on two byte
sequences, and no chain is lost. Every operation that changes the length says what becomes of the
callbacks (`Reported`): each that runs at once has one new call with the change, and the counters
are cleared, or the rest is scheduled; over a run nothing is forgotten (`Kept`). `EvbufferCorners`
takes a buffer from nothing to each of the states in which the code fails.

**Interest sets** (`EpollTable`, `Evmap`, `EvmapRuns`). Counts per descriptor, the list of changes
between two dispatches, the 512-row table that turns a change into one `epoll_ctl` call, and the
kernel as a map from descriptors to what it watches, with ENOENT and EEXIST. The list is an
optimisation; `BatchEquivalence` says that it changes nothing, in runs of additions, deletions,
dispatches and closed descriptors. A descriptor closed behind the back of the list is `forgotten`
until something is changed for it.

**The event base** (`EventTime`, `EventState`, `EventBase`, `EventLoop`, `EventRuns`). Timeouts are
in the heap or in sorted lists of a common duration, each with an internal event in the heap. The
flags of all events, the heap, the lists, the active queues, the later queue and the two counters
have to agree (`Agree`), and every list that is not empty has a timer that is active or early enough
(`WakesBut`). Every call keeps both, so the loop never waits longer than until the earliest
deadline, and `timeout_process` ends. `EventRuns.FromNothing` starts from a new base; events and
common timeouts are made during the run. `EventRuns.Ticks` follows a periodic event through any
number of rounds: its deadlines do not drift.

**DNS names** (`DnsName`, `DnsMessage`), section 3.1 and section 4.1.4 of RFC 1035. The decoder is
exact on arbitrary bytes. The encoder with its table of suffixes is proved by what the message
spells, for messages of any size: names are read back from a finished message, whatever has been
written behind them, exactly if no pointer has lost bits of its offset (chance matches apart).

**Suspension and rate limits** (`BufferevFilter`, `TokenBucket`, `RateLimits`, `RateLimitRuns`).
Suspend reasons cascade through filters of any depth. Buckets are 64-bit and 32-bit arithmetic with
wrapping; a group shares one bucket among members some of which may be locked by others when it
wants to suspend or resume them. Runs are measured: what has been moved is at most a burst and the
rate for each tick, for a group plus less than the least share.

**Tagged records** (`TagCodec`, `Tagging`). Integers in nibbles, tags in groups of seven bits, and
records in evbuffers. **Random numbers below a bound** (`Arc4random`).

Times, descriptors, what a socket or the kernel delivers, what the backend answers, which locks are
busy and which random numbers come are parameters.

## Where the code does not do what it might seem to

These are stated as lemmas or as parts of contracts, with the exact condition where there is one.

- Reserving or reading nothing with several vectors runs into an assertion of the code if and only
  if the last chain with data is also the last chain, is full and may be written
  (`EvbufferCommit.ReserveSpace`, `EvbufferRead.Read`). Adding 976 bytes to an empty buffer is
  enough (`EvbufferCorners.NothingReserved`, `EvbufferCorners.NothingRead`).
- A single vector from `evbuffer_reserve_space` is refused by `evbuffer_commit_space` unless its
  chain is the first with space or the last (`EvbufferCommit.OneVectorCommits`). Reserving twice
  without using the space leads to a refusal (`EvbufferCorners.OneVectorRefused`).
- `evbuffer_add_reference` does not check the total. The buffer is in order afterwards if and only
  if the total has not gone around (`Evbuffer.EvBuffer.AddReference`).
- `evbuffer_remove_buffer` tells the callbacks of the destination through `evbuffer_add` and once
  more at its end. The second time there is nothing to tell, unless callbacks are deferred: then
  those that are never put off are told twice of the same bytes (`EvbufferMove.RemoveBuffer`).
- An `evbuffer_prepend` that fails after it has put a part in front leaves that part counted, and no
  callback is told before the next operation (`Evbuffer.EvBuffer.Prepend`).
- In `evbuffer_drain` the test whether the chain is `*last_with_datap` never holds without pinned
  chains when whole chains go; in `evbuffer_prepend_buffer` the test for a null `*last_with_datap`
  never holds for a buffer with data.
- Descriptors from 2^27 on are refused, because the doubled size would not fit
  (`Evmap.IoBase.MakeSpace`).
- A common timeout of exactly 1000000 microseconds is not normalized and gets a list apart from that
  of one second (`EventLoop.InitCommonTimeout`).
- `event_active_later` does not look at the flag FINALIZING, unlike `event_active`
  (`EventLoop.ActiveLater`).
- Compression pointers hold fourteen bits, but offsets up to 65535 are written. A name is read back
  if and only if it ends without a pointer, or with one to an offset below 0x4000, or an empty label
  stops the reader before that, or the same labels happen to be where the pointer leads
  (`DnsMessage.RightExactly`, `DnsMessage.MessageRight`); `DnsMessage.LostBits` makes a response
  with one question and three records in which the name "a" is read as the name of the root. Such a
  response goes out whole over TCP; over UDP it is cut to the size the client takes.
- The zero byte that ends a name is written without a test for room: it goes one byte behind the
  buffer if and only if the name fits but for that byte and has a last label that is not empty
  (`DnsMessage.VerdictPast`, and a response in `DnsMessage.NoTerminator`).
- `name_parse` tests for labels longer than 63 bytes where they have been taken for pointers
  already.
- Suspending with no reason at all stops the layers below and leaves no trace
  (`BufferevFilter.FilterStack.Suspend`).
- A tick of less than a millisecond is accepted and leads to a division by zero
  (`TokenBucket.CfgNew`).
- A bucket keeps its time of update when the length of its tick changes. If it is empty, refills do
  nothing until the new count of ticks is between 1 and 2^31 - 1 ahead of the old one
  (`RateLimitRuns.ReconfiguredPause`, an equivalence for all configurations); with a longer tick
  that may take decades (`RateLimitRuns.LongerTick`). The same goes for groups
  (`RateLimitRuns.ReconfiguredGroupPause`).
- Refilling a bucket whose limit is above its maximum gives the maximum if and only if the tokens
  come to at least 2^64 minus the excess (`TokenBucket.ToppedExactly`). No caller gets there: every
  run keeps limits at or below their maxima (`OwnOk` and `DebtOk`, which `RateLimitRuns.DoAll`
  keeps).
- The comments in `event_tagging.c` describe both formats as beginning with the most significant
  part; the code begins with the least significant one (`TagCodec.IntDigits`, `TagCodec.TagDigits`).
- For data of 2^31 bytes or more `evtag_consume` drains the whole buffer, except for 2^32 - 1 bytes,
  where it drains the header and fails (`Tagging.LongConsumed`). So what `evtag_peek_length` says is
  what is consumed if and only if the record is complete and its data is shorter than 2^31 bytes, or
  the record is all there is and shorter than 2^32 bytes (`Tagging.PeekIsConsumed`).
- `decode_tag_internal` reads a sixth byte, though it has pulled up five, if and only if there are
  six, the first five announce another one, and the fifth fits (`TagCodec.DecodeTagBytes`). That
  byte is outside the memory of the first chain if and only if the chain ends with the fifth
  (`Tagging.DecodeTag`); `Tagging.SixthByte` is such a buffer.

## Model

| member | source | states |
|---|---|---|
| Memory.Memory.ChainNew | app/src/main/cpp/libevent/buffer.c:153-189 | a chain larger than the limit is refused; otherwise a new empty chain with room for at least `size` bytes, of exactly the size obtained by doubling, and nothing else in memory changes |
| Memory.Memory.FreeAll | app/src/main/cpp/libevent/buffer.c:252-259 | every chain of the list is freed, once, and no other |
| Memory.ConfinedElsewhere | app/src/main/cpp/libevent/buffer.c:287-299 | an operation that stays within the chains of one buffer leaves the list of another buffer in the same memory intact |
| Evbuffer.EvBuffer.TargetAt | app/src/main/cpp/libevent/evbuffer-internal.h:87-99 | following `last_with_datap`, or any link, never leads through a freed chain and leads to the chain it stands for |
| Evbuffer.EvBuffer.FreeTrailing | app/src/main/cpp/libevent/buffer.c:287-299 | frees exactly the empty chains behind the data, keeps the contents, and returns the link where the next chain goes |
| Evbuffer.EvBuffer.ChainInsert | app/src/main/cpp/libevent/buffer.c:305-323 | the new chain takes the place of the trailing empty ones; where the mark is afterwards, and that the contents grow by its data |
| Segments.InsertFlat | app/src/main/cpp/libevent/buffer.c:305-323 | appending behind the kept chains is appending to the byte sequence |
| Evbuffer.EvBuffer.Add | app/src/main/cpp/libevent/buffer.c:1743-1837 | appends all of the data or fails without a change, with the exact condition for failure; chain invariant, counters and memory are kept in order; each callback that runs at once has one new call, in order, with the change, and nothing stays counted, or the rest is scheduled |
| Evbuffer.EvBuffer.AddReference | app/src/main/cpp/libevent/buffer.c:2931-2968 | appends memory that is only read, in its own chain; the total is not checked, and the buffer is in order afterwards exactly if it has not gone around; the callbacks as for evbuffer_add |
| Evbuffer.EvBuffer.Prepend | app/src/main/cpp/libevent/buffer.c:1840-1923 | puts the data in front; if memory runs out on the way, what has been put in front is an end of the data; the callbacks as for evbuffer_add, but on failure what has been put in front is only counted; memory that may only be read is not written |
| Evbuffer.EvBuffer.Drain | app/src/main/cpp/libevent/buffer.c:1114-1179 | removes the first `len` bytes, or all; `last_with_datap` never points into a freed chain; the callbacks are told, or it is scheduled, unless the buffer was empty or is frozen |
| Evbuffer.EvBuffer.FreeDrained | app/src/main/cpp/libevent/buffer.c:1140-1161 | the loop stops at the chain where the bytes to drop end, and the mark is retargeted before its chain is freed |
| Segments.DropFirst | app/src/main/cpp/libevent/buffer.c:1114-1179 | dropping whole chains and a part of the next one is dropping a prefix of the byte sequence, and the mark moves along |
| EvbufferMove.AddBuffer | app/src/main/cpp/libevent/buffer.c:979-1022 | the second buffer is emptied into the first, at its end, without copying; exact failure condition; also for a buffer and itself; both sides tell their callbacks |
| EvbufferMove.PrependBuffer | app/src/main/cpp/libevent/buffer.c:1068-1111 | the same at the front; `last_with_datap` is retargeted in each of the cases; both sides tell their callbacks |
| EvbufferMove.TakeOver | app/src/main/cpp/libevent/buffer.c:888-899 | a buffer without data takes over the chains of the other, and its own empty ones are freed |
| EvbufferMove.AppendChain | app/src/main/cpp/libevent/buffer.c:902-918 | `&src->first` becomes the link at the end of `dst`; the mark is the mark of the joined list |
| EvbufferMove.PrependChain | app/src/main/cpp/libevent/buffer.c:961-976 | `&dst->first` becomes `&src->last->next`; the mark is the mark of the joined list |
| EvbufferMove.JoinedLink | app/src/main/cpp/libevent/buffer.c:902-918 | after relinking, each link to a chain of the back part, the retargeted one included, leads to the same chain as before |
| EvbufferMove.AdvanceLastWithData | app/src/main/cpp/libevent/buffer.c:717-734 | from a mark that may lie too far ahead or behind, the mark of the invariant is restored |
| EvbufferMove.WholeChains | app/src/main/cpp/libevent/buffer.c:1299-1314 | the loop takes only chains that go as a whole, and stops at the latest at the last chain with data |
| EvbufferMove.MoveWhole | app/src/main/cpp/libevent/buffer.c:1315-1338 | relinking the first chains of `src` behind `dst`, with both lists in order and the bytes in the right places |
| EvbufferMove.RemoveBuffer | app/src/main/cpp/libevent/buffer.c:1273-1360 | moves exactly the first min(datlen, length) bytes; the total over both buffers is conserved; both invariants hold; what the 32-bit result is; both sides tell their callbacks, and when callbacks are deferred and bytes are left over, those of `dst` that are never put off are told twice |
| EvbufferPullup.Gather | app/src/main/cpp/libevent/buffer.c:1429-1447 | the copying loop collects a prefix of the contents and frees exactly the chains it has copied whole |
| EvbufferPullup.Finish | app/src/main/cpp/libevent/buffer.c:1449-1474 | `last` and `last_with_datap` are restored in all cases: the last chain gone, the mark gone, or only the link to it gone |
| EvbufferPullup.Pullup | app/src/main/cpp/libevent/buffer.c:1363-1474 | the contents do not change, and the first `size` bytes lie in one piece in the first chain, which is left alone if they do already; when the result is null |
| EvbufferPullup.PulledFlat | app/src/main/cpp/libevent/buffer.c:1363-1474 | gathering a prefix into the first chain keeps the byte sequence, and where the mark is then |
| EvbufferReserve.ExpandSinglechain | app/src/main/cpp/libevent/buffer.c:1952-2059 | room for `datlen` bytes in one chain directly behind the data, without a change to the contents; which chain it is |
| EvbufferReserve.ExpandFast | app/src/main/cpp/libevent/buffer.c:2064-2171 | the first `n` chains from the first writable one have the room; for nothing asked, exactly when no chain is writable |
| EvbufferReserve.ReplaceFacts | app/src/main/cpp/libevent/buffer.c:2023-2050 | a chain that takes the place of another in the middle of the list |
| EvbufferCommit.ReadSetupVecs | app/src/main/cpp/libevent/buffer.c:2236-2271 | vectors over consecutive chains, in their free space, together at least what is asked for, exactly that much if so wanted |
| EvbufferCommit.ReserveSpace | app/src/main/cpp/libevent/buffer.c:684-714 | vectors that offer at least `size` bytes, or a refusal with its reasons; the assertion in the code fails if and only if nothing is asked for in several vectors and the last chain with data is the last one, full and writable |
| EvbufferCommit.CommitSpace | app/src/main/cpp/libevent/buffer.c:737-804 | accepts if and only if the vectors start at the first chain with space, or there is one at the last chain, and each fits; then exactly the written bytes are appended in order; otherwise nothing changes; the callbacks are told |
| EvbufferCommit.OneVectorCommits | app/src/main/cpp/libevent/buffer.c:684-804 | a single vector from the reservation is accepted if and only if its chain is the first with space or the last |
| EvbufferRead.CommitRead | app/src/main/cpp/libevent/buffer.c:2390-2415 | the loop takes exactly the `n` delivered bytes, for any `n` up to the space offered, and moves the mark |
| EvbufferRead.Read | app/src/main/cpp/libevent/buffer.c:2295-2423 | what is delivered is appended, whatever its size; an error changes nothing; when the code aborts; the callbacks are told of what is delivered, and of nothing else |
| EvbufferCorners.OneVectorRefused | app/src/main/cpp/libevent/buffer.c:684-804 | a run from an empty buffer after which the one vector reserved is refused when it is committed |
| EvbufferCorners.NothingReserved | app/src/main/cpp/libevent/buffer.c:684-714 | a run from an empty buffer after which reserving nothing in two vectors fails an assertion |
| EvbufferCorners.NothingRead | app/src/main/cpp/libevent/buffer.c:2295-2423 | a run from an empty buffer after which reading nothing aborts |
| EvbufferSearch.PtrSetTo | app/src/main/cpp/libevent/buffer.c:2633-2682 | the cursor is at the position asked for and its chain and offset are those of that byte; when it fails, on overflow too |
| EvbufferSearch.Subtract | app/src/main/cpp/libevent/buffer.c:2613-2630 | going back, within the chain or from the start |
| EvbufferSearch.PtrMemcmp | app/src/main/cpp/libevent/buffer.c:2689-2722 | equal if and only if the bytes at the cursor match, across any number of chains |
| EvbufferSearch.SearchRange | app/src/main/cpp/libevent/buffer.c:2731-2792 | the least match between `start` and `end`, or none exactly if there is none; the cursor resolves to it |
| EvbufferSearch.FindEolChar | app/src/main/cpp/libevent/buffer.c:1509-1533 | the search in pieces of 128 bytes finds the first CR or LF |
| EvbufferSearch.Strspn | app/src/main/cpp/libevent/buffer.c:1558-1594 | the length of the maximal run of CR and LF, over chains |
| EvbufferSearch.SearchEol | app/src/main/cpp/libevent/buffer.c:1610-1697 | where the line ends and how long the line end is, for each style; a CR before the LF counts also in an earlier chain, but not before the start |
| EvbufferSearch.EolUnique | app/src/main/cpp/libevent/buffer.c:1610-1697 | what is asked of a line end determines its place and length |
| EvbufferSearch.EolBytes | app/src/main/cpp/libevent/buffer.c:1610-1697 | a line end of each style in terms of the bytes 13, 10 and 0, both directions |
| EvbufferSearch.CopyoutFrom | app/src/main/cpp/libevent/buffer.c:1203-1267 | the bytes copied are those of the flat contents |
| EvbufferSearch.Remove | app/src/main/cpp/libevent/buffer.c:1183-1194 | the bytes copied out are drained, and the callbacks are told of those |
| EvbufferSearch.Readln | app/src/main/cpp/libevent/buffer.c:1700-1736 | contents = line ++ line end ++ rest; no line exactly if there is no line end or reading is frozen |
| BufferCallbacks.CbState.RunCallbacks | app/src/main/cpp/libevent/buffer.c:453-508 | who is called and with which counters; `orig_size` is the length at the previous clearing; when the counters are cleared |
| BufferCallbacks.CbState.Invoke | app/src/main/cpp/libevent/buffer.c:511-528 | immediate and deferred mode: each enabled callback, in deferred mode each that is also never put off, has exactly one new call, in list order, with the counters and lengths that fit together, and nobody else has one; then nothing is counted, or the rest stays counted and is scheduled |
| BufferCallbacks.CbState.RunDeferred | app/src/main/cpp/libevent/buffer.c:531-544 | the round that was put off: each enabled callback that can be put off has one call with everything since the last clearing, and nobody else; then nothing is counted any more |
| BufferCallbacks.CallsEach | app/src/main/cpp/libevent/buffer.c:473-508 | the calls of a round: one for each callback that is wanted, in list order, with the same counters |
| BufferCallbacks.ReportsAddUp | app/src/main/cpp/libevent/buffer.c:453-508 | the sum of all reported changes, and those still counted, is the current length |
| BufferCallbacks.ReportedKept | app/src/main/cpp/libevent/buffer.c:453-528 | one report: nothing that is counted is forgotten, and while callbacks are not deferred each enabled one has been told by how much the length has changed |
| BufferCallbacks.ToldOnce | app/src/main/cpp/libevent/buffer.c:473-508 | with one call each, a callback is told of the change exactly once |
| EvbufferRuns.Do | app/src/main/cpp/libevent/buffer.c:979-2171 | any operation on one of two buffers is the operation on two byte sequences |
| EvbufferRuns.DoAll | app/src/main/cpp/libevent/buffer.c:979-2171 | any run: the chain invariant, the contents of the same run on byte sequences, the callback account, and no chain of anyone else touched; while callbacks are not deferred nothing is left counted after any operation, and each enabled callback has been told of exactly the change of the length over the run; in deferred mode what is counted is scheduled |
| EvbufferRuns.FromNothing | app/src/main/cpp/libevent/buffer.c:153-259 | from empty memory: at any time the memory in use is exactly the chains of the two buffers, so nothing leaks |
| EvbufferRuns.MovesConserve | app/src/main/cpp/libevent/buffer.c:979-1360 | moving bytes between buffers neither loses nor duplicates any |
| EpollTable.IndexBack | app/src/main/cpp/libevent/epolltable-internal.h:124-129 | the index into the table loses nothing of the change |
| EpollTable.RowOf | app/src/main/cpp/libevent/epolltable-internal.h:40-122 | the row of every change that can be made leads from the old interest to the one meant; no such row is an impossible one |
| EpollTable.Kernel.EpollCtl | app/src/main/cpp/libevent/epoll.c:303-393 | the kernel as seen by the code: ENOENT and EEXIST, and what is watched afterwards |
| EpollTable.ApplyOneChange | app/src/main/cpp/libevent/epoll.c:303-393 | afterwards the kernel watches what was meant, even if it had forgotten the descriptor or knew it already |
| Evmap.IoBase.MakeSpace | app/src/main/cpp/libevent/evmap.c:205-232 | the array reaches the slot, or fails exactly from 2^27 on; no entry changes |
| Evmap.IoBase.GetOrConstruct | app/src/main/cpp/libevent/evmap.c:835-863 | one entry of the list for each descriptor, which remembers what was wanted at the last dispatch |
| Evmap.IoBase.ChangelistAdd | app/src/main/cpp/libevent/evmap.c:866-893 | an addition overrides a deletion noted before |
| Evmap.IoBase.ChangelistDel | app/src/main/cpp/libevent/evmap.c:896-946 | a deletion of what was not there at the last dispatch is no change at all |
| Evmap.NotedChange | app/src/main/cpp/libevent/evmap.c:866-946 | old interest, noted additions and deletions together are always what is wanted now |
| Evmap.KindsAreUnion | app/src/main/cpp/libevent/evmap.c:273-417 | the kinds with nonzero count are the kinds some added event waits for |
| Evmap.IoBase.TellNow | app/src/main/cpp/libevent/epoll.c:415-454 | without a list the change is made at once and the kernel is up to date |
| Evmap.IoBase.IoAdd | app/src/main/cpp/libevent/evmap.c:273-349 | the event is in the list of its descriptor, or refused for the exact reasons; the counts, the list of changes and the kernel stay in step; when the result is 1 |
| Evmap.IoBase.IoDel | app/src/main/cpp/libevent/evmap.c:354-417 | the event is not in the list any more; the same is kept; when the result is 1 |
| Evmap.IoBase.ApplyChanges | app/src/main/cpp/libevent/epoll.c:396-412 | all descriptors in the list are told; of those the kernel has forgotten, exactly the ones with something to do are known again |
| Evmap.IoBase.RemoveAll | app/src/main/cpp/libevent/evmap.c:779-797 | the list is empty and no entry points into it |
| Evmap.IoBase.Dispatch | app/src/main/cpp/libevent/epoll.c:457-475 | before waiting, the kernel watches each descriptor for exactly what its events wait for |
| EvmapRuns.PerformAll | app/src/main/cpp/libevent/evmap.c:273-417 | any run of additions, deletions, dispatches and closed descriptors keeps all in step and forgets closed descriptors at most; a base with a list says nothing to the kernel between dispatches |
| EvmapRuns.UpToDate | app/src/main/cpp/libevent/epoll.c:415-454 | without a list the kernel is up to date at all times |
| EvmapRuns.BatchEquivalence | app/src/main/cpp/libevent/evmap.c:779-946 | the same run with and without a list: after one more dispatch both kernels watch the kinds that events wait for, equal except for closed descriptors that are still forgotten, and equal altogether if none was closed |
| EventTime.Ordered | app/src/main/cpp/libevent/event.c:1430-1504 | comparing times that carry the magic of one list is comparing times |
| EventTime.TaggedTime | app/src/main/cpp/libevent/event.c:1430-1455 | the magic and the index are kept apart from the microseconds |
| EventBase.EventBase.InsertTimeout | app/src/main/cpp/libevent/event.c:3372-3477 | into the heap, or into the list of its duration at a place that keeps it sorted; counters and flags agree; events with the same deadline stay in the order in which they were added |
| EventBase.EventBase.RemoveTimeout | app/src/main/cpp/libevent/event.c:3308-3327 | out of the structure it is on, and no other |
| EventBase.EventBase.InsertActive | app/src/main/cpp/libevent/event.c:3418-3436 | at the end of the queue of its priority, with both counters |
| EventBase.EventBase.RemoveActive | app/src/main/cpp/libevent/event.c:3277-3291 | out of the queue of its priority |
| EventBase.EventBase.MakeLaterActive | app/src/main/cpp/libevent/event.c:3480-3492 | callbacks that were put off go to the ends of the queues of their priorities in their order; the count of active ones does not change |
| EventBase.EventBase.Del | app/src/main/cpp/libevent/event.c:2851-2939 | off all structures, unless finalizing; what the result is; timers of lists that may be late now are accounted for |
| EventBase.EventBase.Activate | app/src/main/cpp/libevent/event.c:2960-3008 | the event is active, at the end of its queue if it was not before, and its results are or-ed; nothing if it is finalizing |
| EventBase.EventBase.CallbackActivate | app/src/main/cpp/libevent/event.c:3047-3075 | from nowhere or from the later queue to the end of the active queue of its priority, and what is returned |
| EventBase.EventBase.AddTimeout | app/src/main/cpp/libevent/event.c:2703-2798 | deadline and interval, a replaced timeout, and an activation by the last timeout taken back; no list is left without a timer in time |
| EventBase.EventBase.Schedule | app/src/main/cpp/libevent/event.c:1472-1478 | the timer of a list is pending with exactly the deadline of the first event in it, and no other event changes |
| EventBase.EventBase.Add | app/src/main/cpp/libevent/event.c:2638-2807 | the whole of event_add: when it fails, and then nothing changes; the source; deadline, remembered interval and the activation taken back, flag by flag |
| EventLoop.HeapIsFirst | app/src/main/cpp/libevent/event.c:3184-3218 | with nothing active, the first event in the heap is no later than any pending timeout in heap or lists |
| EventLoop.TimeoutNext | app/src/main/cpp/libevent/event.c:3184-3218 | the wait ends at the earliest deadline in the heap; with nothing active it never exceeds the time to any pending timeout, so the loop does not oversleep |
| EventLoop.TimeoutProcess | app/src/main/cpp/libevent/event.c:3222-3245 | terminates, leaves no heap timeout at or before now, fires exactly the due ones: they are active for their timeout and no longer waiting |
| EventLoop.CommonTimeoutCallback | app/src/main/cpp/libevent/event.c:1484-1504 | the due events at the front of the list fire, no others, and the timer is set for the rest |
| EventLoop.PersistClosure | app/src/main/cpp/libevent/event.c:1584-1646 | a persistent event with an interval is pending again at the time NextRun says, with the tag of its interval, unless adding it fails; other events keep their state |
| EventLoop.NextRun | app/src/main/cpp/libevent/event.c:1595-1637 | not in the past; an interval after the old deadline if the event ran because of it and that is not over, an interval after now otherwise; at most an interval after now for an event that was due |
| EventLoop.ProcessFirst | app/src/main/cpp/libevent/event.c:1656-1735 | the first callback of the queue leaves it. An event with EV_PERSIST stays inserted, with its timeout as it was, or pending again an interval later if it remembers one; any other event is in no heap, list or queue afterwards; a finalizing one and a deferred callback lose their place in the queue only; the timer of a list fires what is due there; integrity is kept |
| EventLoop.ActiveLater | app/src/main/cpp/libevent/event.c:3019-3033 | to the end of the later queue, if not active; the flag FINALIZING is not looked at |
| EventLoop.Finalize | app/src/main/cpp/libevent/event.c:2288-2299 | off all structures and active a last time; a second call only changes the closure |
| EventLoop.FinalizeCallback | app/src/main/cpp/libevent/event.c:2329-2344 | the same for an event or a deferred callback: off all structures and active a last time; a second call only changes the closure |
| EventLoop.InitCommonTimeout | app/src/main/cpp/libevent/event.c:1509-1580 | the time returned is that of the duration asked for, without magic bits, in the form the code gives it; the same duration gets the same list; fails exactly if it is new and all 256 lists are taken |
| EventLoop.RemoveTimer | app/src/main/cpp/libevent/event.c:2596-2612 | the timeout and the interval are gone, nothing else |
| EventLoop.Cancel | app/src/main/cpp/libevent/event.c:3110-3137 | an event is deleted, a deferred callback leaves its queue |
| EventRuns.DoAll | app/src/main/cpp/libevent/event.c:2286-3492 | any run of all these calls, in any order and at any times, with events and common timeouts made on the way, keeps the base in order |
| EventRuns.FromNothing | app/src/main/cpp/libevent/event.c:2286-3492 | a new base and any run: when no callback is active, the wait that follows does not go past any pending timeout, in the heap or in a list |
| EventRuns.Start | app/src/main/cpp/libevent/event.c:2638-2807 | event_add with an interval makes a persistent event periodic: pending for now plus the interval, which is remembered |
| EventRuns.Ticks | app/src/main/cpp/libevent/event.c:1584-3245 | a periodic event runs once for each time its timeout is found to have run out, any number of times; if it never is more than an interval late, the n-th deadline is exactly n intervals after the first, so it does not drift |
| EventRuns.AssertOk | app/src/main/cpp/libevent/event.c:4005-4062 | the invariant implies the checks of event_base_assert_ok_nolock_ on the flags of heap events, on the common timeouts, on the active queues and on the count |
| EventRuns.FinalizingIsGone | app/src/main/cpp/libevent/event.c:2288-2299 | a finalizing event is on no timeout structure, and on none at all once it has run |
| EventState.FlagCountChange | app/src/main/cpp/libevent/event.c:3251-3262 | event_count follows the flags: it is the number of flags set on events that are not internal |
| DnsName.NameParse | app/src/main/cpp/libevent/evdns.c:1212-1266 | on any bytes: succeeds if and only if the bytes spell a name that fits; writes its labels with dots; the index behind it; at most length + name_out_len + 2 steps; reads and writes within bounds |
| DnsName.AddLabel | app/src/main/cpp/libevent/evdns.c:1249-1257 | one label is written with its dot if and only if it lies in the packet and fits |
| DnsName.SpellsOne | app/src/main/cpp/libevent/evdns.c:1212-1266 | a packet spells at most one name at an offset |
| DnsName.HopsBounded | app/src/main/cpp/libevent/evdns.c:1227-1239 | a name follows no pointer twice, so no more pointers than the packet has bytes |
| DnsName.SpellsGrow | app/src/main/cpp/libevent/evdns.c:1212-1266 | what is spelled does not change when the packet grows |
| DnsName.JoinLabels | app/src/main/cpp/libevent/evdns.c:1917-1992 | a dotted name is the join of its labels if and only if it has no empty label, or is the root |
| DnsName.LabelsShort | app/src/main/cpp/libevent/evdns.c:1227-1248 | labels that are read have 1 to 63 bytes |
| DnsMessage.PointerBack | app/src/main/cpp/libevent/evdns.c:1947-1955 | a pointer leads to the offset modulo 0x4000, so to the offset itself if and only if that is below 0x4000 |
| DnsMessage.LabelTable.GetPos | app/src/main/cpp/libevent/evdns.c:1889-1897 | the first entry for the name, or none exactly if there is none |
| DnsMessage.LabelTable.Add | app/src/main/cpp/libevent/evdns.c:1901-1915 | a full table refuses and stays as it is |
| DnsMessage.NameToLabels | app/src/main/cpp/libevent/evdns.c:1917-1992 | the outcome for each name, table, offset and buffer size, each error exactly for its reason; on success the bytes written and the new table; what they mean is stated in the next rows |
| DnsMessage.VerdictNext | app/src/main/cpp/libevent/evdns.c:1929-1992 | a name is written if and only if it has at most 255 bytes, none of the labels that are written has more than 63, and there is room for it |
| DnsMessage.VerdictPast | app/src/main/cpp/libevent/evdns.c:1985-1988 | the terminator goes behind the end of the buffer if and only if the name ends with a label that is not empty and all of it fits but that byte |
| DnsMessage.ReadsAs | app/src/main/cpp/libevent/evdns.c:1212-1992 | a name that is ended by a pointer reads as its first labels and whatever is read where the pointer leads, for all labels |
| DnsMessage.RightExactly | app/src/main/cpp/libevent/evdns.c:1212-1992 | a name is read as it was written if and only if it ends without a pointer, or with one to an offset below 0x4000, or reading stops before it, or the rest happens to be where the pointer leads |
| DnsMessage.LearnedOk | app/src/main/cpp/libevent/evdns.c:1901-1992 | after a name has been written, each entry with an offset below 0x4000 says where its name is |
| DnsMessage.WrittenAgain | app/src/main/cpp/libevent/evdns.c:1941-1992 | each end of a name that was written in full takes two bytes, a pointer, when it is written again, if the table had room |
| DnsMessage.ReadsTo | app/src/main/cpp/libevent/evdns.c:1212-1992 | a reader finds the end of the name where it was written if and only if no empty label comes before the ending |
| DnsMessage.Message.AddName | app/src/main/cpp/libevent/evdns.c:2452-2480 | a name written into the message: outcome, bytes and table; the message stays in order, names written before included |
| DnsMessage.Message.AddNameWithLength | app/src/main/cpp/libevent/evdns.c:2483-2500 | a name as record data: the two bytes in front of it, high byte first, lead a reader from behind them to the end of the name; nothing else changes |
| DnsMessage.Message.AddBytes | app/src/main/cpp/libevent/evdns.c:1933-1945 | all of the bytes or none |
| DnsMessage.MessageRight | app/src/main/cpp/libevent/evdns.c:2425-2540 | a whole message is read back as it was written if and only if each name is right in the sense above; a message of at most 16384 bytes always is |
| DnsMessage.ReadBack | app/src/main/cpp/libevent/evdns.c:1212-1992 | round trip by the code itself: any name of a finished message is parsed back as it was given, with its end, if and only if it is right; otherwise its first labels come back with what is found at the wrong place, or nothing |
| DnsMessage.LostBits | app/src/main/cpp/libevent/evdns.c:2425-2540 | a response of 16438 bytes to one question, whose last name is read back as another |
| DnsMessage.RootRecord | app/src/main/cpp/libevent/evdns.c:2425-2540 | a record of any size: the two bytes before its data lead to its end |
| DnsMessage.NoTerminator | app/src/main/cpp/libevent/evdns.c:2425-2540 | a response in which it does |
| DnsMessage.OneEnd | app/src/main/cpp/libevent/evdns.c:1212-1266 | the index behind a name is determined by the packet |
| BufferevFilter.FilterStack.Suspend | app/src/main/cpp/libevent/bufferevent.c:67-75 | the reasons are added, the layers below are told; they are in order afterwards if and only if a reason was given or the layer was not active anyway |
| BufferevFilter.FilterStack.Unsuspend | app/src/main/cpp/libevent/bufferevent.c:78-86 | the reasons are removed, and the layers below are told when none is left and the layer is enabled |
| BufferevFilter.FilterStack.Enable | app/src/main/cpp/libevent/bufferevent.c:487-508 | EV_READ is set, and the backend is told unless suspended |
| BufferevFilter.FilterStack.Disable | app/src/main/cpp/libevent/bufferevent.c:578-592 | EV_READ is cleared and the backend is told |
| BufferevFilter.FilterStack.BackendDisable | app/src/main/cpp/libevent/bufferevent_filter.c:288-299 | a filter suspends the layer under it with its own reason, and so on to the socket |
| BufferevFilter.FilterStack.BackendEnable | app/src/main/cpp/libevent/bufferevent_filter.c:273-285 | a filter takes its reason back from the layer under it |
| BufferevFilter.FilterStack.NewFilter | app/src/main/cpp/libevent/bufferevent_filter.c:170-226 | a filter on top: the layer under it is enabled and suspended by it; the new layer is off, and no other layer changes |
| BufferevFilter.FilterStack.FreeFilter | app/src/main/cpp/libevent/bufferevent_filter.c:229-255 | the filter on top goes, and so does its reason below |
| BufferevFilter.ActiveAbove | app/src/main/cpp/libevent/bufferevent_filter.c:273-299 | a layer is active if and only if it and all above it are enabled and have no reason of their own |
| BufferevFilter.SocketReads | app/src/main/cpp/libevent/bufferevent_filter.c:273-299 | the socket is read if and only if no layer has anything against it |
| BufferevFilter.FilterStack.DoAll | app/src/main/cpp/libevent/bufferevent.c:67-592 | over any run on a stack of any height: a layer carries the reason of the filter above if and only if that one is not active; the socket is read if and only if all are enabled and all reasons have been taken back |
| TokenBucket.CfgNew | app/src/main/cpp/libevent/bufferevent_ratelim.c:143-173 | accepted exactly for 1 <= rate <= burst <= the limit in both directions; the result has these rates and bursts and the tick in milliseconds, rounded down; a tick shorter than a millisecond passes but is unusable |
| TokenBucket.TickLength | app/src/main/cpp/libevent/bufferevent_ratelim.c:126-141 | a tick has as many milliseconds as the configuration says |
| TokenBucket.Init | app/src/main/cpp/libevent/bufferevent_ratelim.c:50-71 | a new bucket holds one tick of tokens, a reinitialized one is only clipped |
| TokenBucket.ToppedUp | app/src/main/cpp/libevent/bufferevent_ratelim.c:74-108 | the 64-bit expression equals min(maximum, limit + n * rate) without overflow, for negative limits too |
| TokenBucket.ToppedExactly | app/src/main/cpp/libevent/bufferevent_ratelim.c:74-108 | for all limits: the expression gives that minimum if and only if the limit is at most the maximum, or the tokens come to 2^64 minus the excess |
| TokenBucket.Update | app/src/main/cpp/libevent/bufferevent_ratelim.c:74-111 | the new limits and the new time, or nothing if no tick has gone by or time runs backwards |
| TokenBucket.ElapsedLater | app/src/main/cpp/libevent/bufferevent_ratelim.c:79-86 | however the 32-bit tick wraps, `k` ticks later at most `k` more are found |
| TokenBucket.ElapsedExactly | app/src/main/cpp/libevent/bufferevent_ratelim.c:79-86 | fewer than 2^31 ticks after an update, exactly the ticks gone by are found |
| TokenBucket.CreditLater | app/src/main/cpp/libevent/bufferevent_ratelim.c:74-111 | what an update would leave in the bucket grows by at most the rate each tick |
| TokenBucket.Earned | app/src/main/cpp/libevent/bufferevent_ratelim.c:74-111 | then each tick has added what the rate gives, up to the maximum |
| RateLimits.RateLimits.GetRlimMax | app/src/main/cpp/libevent/bufferevent_ratelim.c:198-258 | the largest amount that exceeds neither the own limit nor the share of the group, which is the limit divided by the members, rounded down, but at least the least share, or nothing while the group is suspended; a member missed by a suspension is suspended now |
| RateLimits.ShareDivides | app/src/main/cpp/libevent/bufferevent_ratelim.c:244-250 | the share s of a group that is not suspended: s * members <= limit < (s + 1) * members, unless it is the least share |
| RateLimits.AllShares | app/src/main/cpp/libevent/bufferevent_ratelim.c:198-258 | all members together, looking at one level of the bucket, are allowed at most that level, or the least share each |
| RateLimits.RateLimits.Decrement | app/src/main/cpp/libevent/bufferevent_ratelim.c:273-346 | both buckets are poorer by the bytes; the bufferevent is suspended if and only if its bucket is empty, and then its timer is set; the group is suspended if and only if its bucket is empty, and all members that can be locked with it |
| RateLimits.RateLimits.SuspendGroup | app/src/main/cpp/libevent/bufferevent_ratelim.c:350-389 | all members that can be locked are suspended, and the flags |
| RateLimits.RateLimits.UnsuspendGroup | app/src/main/cpp/libevent/bufferevent_ratelim.c:488-523 | all members that can be locked are resumed; if one was missed, the group owes it |
| RateLimits.RateLimits.Refill | app/src/main/cpp/libevent/bufferevent_ratelim.c:394-439 | directions with something to spend go on; the timer is set again if and only if one has nothing |
| RateLimits.RateLimits.GroupRefill | app/src/main/cpp/libevent/bufferevent_ratelim.c:529-557 | the group resumes if there is enough for a share, or if it owes that to a member |
| RateLimits.RateLimits.SetRateLimit | app/src/main/cpp/libevent/bufferevent_ratelim.c:560-635 | a new, a changed or no limit, and what that means for suspension and timer |
| RateLimits.RateLimits.SetMinShare | app/src/main/cpp/libevent/bufferevent_ratelim.c:703-721 | fails exactly above the signed maximum; clamped to both rates |
| RateLimits.RateLimits.GroupSetCfg | app/src/main/cpp/libevent/bufferevent_ratelim.c:672-700 | limits are clipped and the share is clamped again |
| RateLimits.RateLimits.AddToGroup | app/src/main/cpp/libevent/bufferevent_ratelim.c:735-778 | a member is counted once, and suspended if the group is |
| RateLimits.RateLimits.RemoveFromGroup | app/src/main/cpp/libevent/bufferevent_ratelim.c:781-807 | not counted any more, and not suspended for the group |
| RateLimits.RateLimits.constructor | app/src/main/cpp/libevent/bufferevent_ratelim.c:638-669 | a new group is in order, with a least share of at most 64 bytes |
| RateLimitRuns.Transfer | app/src/main/cpp/libevent/bufferevent_sock.c:149-227 | moves exactly the smaller of what is wanted and what is allowed, and nothing while suspended; all invariants are kept, the credit pays for what is moved |
| RateLimitRuns.GroupChargedOk | app/src/main/cpp/libevent/bufferevent_ratelim.c:198-308 | a member may overdraw the bucket of the group by less than the least share |
| RateLimitRuns.Budget | app/src/main/cpp/libevent/bufferevent_ratelim.c:74-111 | what has been drawn is no more than a burst and the rate for each tick between the two times |
| RateLimitRuns.GroupBudget | app/src/main/cpp/libevent/bufferevent_ratelim.c:198-308 | the same for the group, plus less than the least share |
| RateLimitRuns.DoAll | app/src/main/cpp/libevent/bufferevent_ratelim.c:50-807 | over any run, changes of all configurations included: each bufferevent whose limit stays moves at most burst + T * rate, a group whose limit stays and whose time is in step less than burst + T * rate + least share, limits and suspensions agree, and a suspended bufferevent always has its timer or a group that owes it |
| RateLimitRuns.OwnPause | app/src/main/cpp/libevent/bufferevent_ratelim.c:394-439 | a refill leaves a bufferevent suspended by its own bucket if and only if it was, the bucket was empty and no tick has been found; the timer is set again for no other reason |
| RateLimitRuns.ReconfiguredPause | app/src/main/cpp/libevent/bufferevent_ratelim.c:50-71 | for all configurations: after a change a refill leaves the bufferevent suspended if and only if the bucket was empty and the new count of ticks is not between 1 and 2^31 - 1 ahead of the old one |
| RateLimitRuns.GroupPause | app/src/main/cpp/libevent/bufferevent_ratelim.c:529-557 | after its tick a group is suspended if and only if it was and the ticks found do not make up for the debt and a share |
| RateLimitRuns.ReconfiguredGroupPause | app/src/main/cpp/libevent/bufferevent_ratelim.c:672-700 | for all configurations: after a change and its next tick a group is suspended if and only if it was and the ticks found, none unless the new count is between 1 and 2^31 - 1 ahead of the old one, do not make up at the new rate for what it lacks |
| RateLimitRuns.LongerTick | app/src/main/cpp/libevent/bufferevent_ratelim.c:50-71 | one such change, after which refills do nothing for more than thirty years |
| TagCodec.EncodeIntInternal | app/src/main/cpp/libevent/event_tagging.c:121-154 | in place: the bytes written are the encoding of the number, none outside change |
| TagCodec.IntUnique | app/src/main/cpp/libevent/event_tagging.c:121-154 | a number has one encoding |
| TagCodec.DecodeNibbles | app/src/main/cpp/libevent/event_tagging.c:342-349 | the loop computes the number the nibbles stand for, without overflow |
| TagCodec.IntRoundTrip | app/src/main/cpp/libevent/event_tagging.c:121-370 | decoding undoes encoding for 32-bit and 64-bit numbers, whatever follows |
| TagCodec.EncodeTag | app/src/main/cpp/libevent/event_tagging.c:178-198 | the groups of seven bits of the tag, in at most five bytes |
| TagCodec.DecodeTagBytes | app/src/main/cpp/libevent/event_tagging.c:219-236 | the loop computes the value of the groups or fails, for more than 32 bits or missing bytes; it reads a sixth byte if and only if there is one, five announce it and fit |
| TagCodec.TagRoundTrip | app/src/main/cpp/libevent/event_tagging.c:178-246 | decoding undoes encoding for all 32-bit tags, whatever follows |
| TagCodec.IntDigits | app/src/main/cpp/libevent/event_tagging.c:80-93 | for all numbers: the nibbles are the digits in base 16, the least significant one first |
| TagCodec.IntSize | app/src/main/cpp/libevent/event_tagging.c:121-154 | the count in front of the nibbles is the least that will do, and the number of bytes follows from it |
| TagCodec.TagDigits | app/src/main/cpp/libevent/event_tagging.c:178-198 | for all tags: the groups are the digits in base 128, the least significant one first |
| Tagging.DecodeTag | app/src/main/cpp/libevent/event_tagging.c:201-246 | the tag and its length; only what was asked for is drained; when a byte outside the memory of the first chain is read |
| Tagging.SixthByte | app/src/main/cpp/libevent/event_tagging.c:201-246 | a buffer for which one is |
| Tagging.DecodeIntInternal | app/src/main/cpp/libevent/event_tagging.c:366-377 | the number at an offset and its length, or -1 exactly if the bytes are missing or too many nibbles are announced; nothing is drained |
| Tagging.Marshal | app/src/main/cpp/libevent/event_tagging.c:261-267 | tag, length and data are appended, each if there is room |
| Tagging.UnmarshalHeader | app/src/main/cpp/libevent/event_tagging.c:442-455 | the length of the data, or -1 with what has been drained by then |
| Tagging.Unmarshal | app/src/main/cpp/libevent/event_tagging.c:471-484 | the data goes to the other buffer; on failure what has gone and what has not |
| Tagging.Consume | app/src/main/cpp/libevent/event_tagging.c:458-466 | what is drained, for negative lengths too |
| Tagging.PeekLength | app/src/main/cpp/libevent/event_tagging.c:406-421 | the length of header and data modulo 2^32; nothing changes |
| Tagging.PayloadLength | app/src/main/cpp/libevent/event_tagging.c:424-437 | the length of the data; nothing changes |
| Tagging.PeekIsConsumed | app/src/main/cpp/libevent/event_tagging.c:406-466 | for any header: the length peeked is what is consumed if and only if the record is complete and its data is shorter than 2^31 bytes, or the record is all there is and shorter than 2^32 bytes; when consuming succeeds |
| Tagging.LongConsumed | app/src/main/cpp/libevent/event_tagging.c:442-466 | what is consumed of any record with 2^31 bytes of data or more: everything, or only the header for 2^32 - 1 bytes |
| Tagging.MarshalInt | app/src/main/cpp/libevent/event_tagging.c:281-301 | a record whose data is the encoded integer |
| Tagging.MarshalTimeval | app/src/main/cpp/libevent/event_tagging.c:311-317 | a record whose data is two encoded integers, written one behind the other in place |
| Tagging.UnmarshalInt | app/src/main/cpp/libevent/event_tagging.c:489-538 | the integer of a record with the right tag, and what is drained in each case; a success means the tag was the one asked for, and with another tag exactly the bytes of the tag are gone |
| Tagging.UnmarshalTimeval | app/src/main/cpp/libevent/event_tagging.c:584-609 | the time of a record with the right tag, and what is drained in each case; a success means the tag was the one asked for |
| Tagging.RecordRoundTrip | app/src/main/cpp/libevent/event_tagging.c:261-484 | unmarshalling a marshalled record gives its data and leaves what follows |
| Tagging.IntegerRoundTrip | app/src/main/cpp/libevent/event_tagging.c:281-538 | integers of both widths come back |
| Tagging.AnyInteger | app/src/main/cpp/libevent/event_tagging.c:489-538 | for any record, any tag asked for and anything behind it: with another tag the bytes of the tag go and the rest stays; with the same tag the record goes, and its integer comes back unless it goes on behind the record |
| Tagging.CutShort | app/src/main/cpp/libevent/event_tagging.c:442-609 | a record with fewer bytes than it announces is refused, its header is gone and its data stays |
| Tagging.TimeRoundTrip | app/src/main/cpp/libevent/event_tagging.c:311-609 | times come back modulo 2^32 |
| Tagging.AnyTime | app/src/main/cpp/libevent/event_tagging.c:584-609 | for any record and any tag asked for: the record goes, and a time comes back if and only if the tag is right and both integers lie in the record |
| Tagging.WriteAll | app/src/main/cpp/libevent/event_tagging.c:261-267 | a list of records is written as their concatenation |
| Tagging.ReadAll | app/src/main/cpp/libevent/event_tagging.c:471-484 | a stream of any records followed by anything is read back record by record, and exactly what follows is left |
| Tagging.RoundTrip | app/src/main/cpp/libevent/event_tagging.c:261-484 | any list of records through a pair of new buffers |
| Arc4random.LeastIsRemainder | app/src/main/cpp/libevent/arc4random.c:505-514 | both branches of the 32-bit computation give 2^32 mod upper_bound |
| Arc4random.Uniformity | app/src/main/cpp/libevent/arc4random.c:496-528 | each result has exactly (2^32 - min) / upper_bound preimages among the accepted numbers |
| Arc4random.MostAreAccepted | app/src/main/cpp/libevent/arc4random.c:516-526 | more than half of all numbers are accepted |
| Arc4random.Generator.Uniform | app/src/main/cpp/libevent/arc4random.c:496-528 | the first number that is not rejected decides, and no further one is used |

## Left out

- Pinned chains, file segments, `sendfile`, multicast chains, cleanup callbacks, overlapped buffers.
- Aliasing of memory added by reference with memory of its owner: its bytes do not change in the model.
- The memory of a chain is a byte string that is replaced as a whole, not an array updated in place; a chain is a record in the memory, not an object.
- Allocations succeed unless they are larger than a chain can be, so the paths for exhausted memory are not reached otherwise.
- Lengths beyond what real memory can hold: several operations ask for a total of at most SSIZE_MAX or SIZE_MAX, and the sums in evbuffer_expand_fast_ are not cut to 64 bits.
- Evbuffer.EvBuffer.AddReference: one piece of data is not longer than a chain can be, which is more than an address space holds.
- Tagging.Marshal: evtag_marshal_buffer, evtag_marshal_string, evtag_unmarshal_fixed and evtag_unmarshal_string are not modelled, because they add only another way to hand over the data.
- TagCodec.DecodeTagBytes: a sixth byte is taken to be zero where the code reads whatever is there, because the tag is refused for any value.
- The write side, timeouts and watermarks of bufferevents; TLS bufferevents and pairs.
- RateLimits.RateLimits.Decrement: the totals of a group are not kept, and negative amounts are not part of the runs, because they are statistics and refunds; limits are not cut to 64 bits when they are charged, and stay in range in every run.
- RateLimits.RateLimits.UnsuspendGroup: the random order in which members are resumed is not modelled, because the members do not depend on each other.
- Evmap.IoBase.IoAdd: edge-triggered and level-triggered events are not mixed on one descriptor, and signals are not modelled.
- EpollTable.ApplyOneChange: errors of epoll_ctl other than ENOENT and EEXIST are not modelled, because nothing is known of the kernel's state then.
- The min-heap of timeouts is a set from which an earliest member is taken; minheap-internal.h is not part of this model.
- EventBase.EventBase.Add: times are given with less than 1000000 microseconds, as struct timeval asks for, so a common timeout of exactly that many (which the code does not normalize) is not used for an event.
- EventRuns.Ticks: no other timeout is pending and no other callback is active in these rounds, so that the callback is the first in its queue; what other events do is the matter of `EventRuns.DoAll`.
- Signals, threads and their notification, prepare and check watchers, event_base_active_by_fd, the maxima of counters, and the limits on callbacks run in one round.
- User callbacks do not call back into the structure that is being changed; a call is one step.
- DnsMessage.Message.AddName: nothing is said of a message in which a name did not fit; the code then cuts it to the largest reply.
- DnsMessage.LabelTable.Add: it does not fail for lack of memory, which would only leave an entry out.
- EventRuns.AssertOk: the order of the heap, the indices kept in it and the links of the lists are not part of the model, whose heap is a set and whose lists are sequences; the checks of evmap_check_integrity_ are the invariant of `Evmap`.
- DNS sockets, requests, retries, caches and the records themselves, except for names in them.
- Locks: which bufferevents are locked by others when a group wants to suspend or resume them is a parameter.
- arc4random itself; the numbers it gives are a parameter.
