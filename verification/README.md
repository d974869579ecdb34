# Kokkos Comm, modelled and verified

Kokkos Comm sends Kokkos views over MPI and NCCL. Most of its entry points are one library call;
this project models the parts that carry logic of their own and proves what they promise. MPI
itself is an environment whose published rules (MPI 3.1) are written down as steps or as method
contracts: section 3.5 (matching in posting order), section 3.7.3 and section 3.7.5 (completion),
section 3.9 (persistent requests), section 4.1.2 (type maps), section 5.9 (reduction) and
section 6.4.2 (splitting).

How the files fit together:

- `MixedRadix`, `Pigeonhole`, `Common`: arithmetic of multi-indices, finite counting, shared types.
- `StridedView`: a view is a base plus extents and strides of any rank over a parent allocation.
  What goes on the wire for it (the span as it lies, or a packed copy) and what a receive leaves
  behind. `Packer` does the two copies in place, `Counts` adds that the library is handed the number of
  elements as an int, `HVector` and `TypeCache` are the derived-datatype route and its cache.
- `Requests`, `PointToPoint`, `Reduce`: the request class with its callbacks, and the operations that
  fill one in, as methods on arrays. `RequestRuns` is the same life cycle over whole runs with moves,
  `RequestSteps` says what each of its steps does, and `RequestRefinement` ties the objects to it.
- `Oracle`, `DeliveryTest`: the unit tests' delivery check, and what a passed test shows.
- `Network`: ranks, streams per source, destination and tag, posting, matching, injection and
  completion as nondeterministic steps. Two protocols run on it: the halo exchange
  (`NeighbourExchange`, `ExchangeDelivery`, `ExchangeProgress`, `HaloGrid`, `Halo`) and the ring of
  persistent channels (`Ring`, `RingSafety`, `RingDelivery`, `RingProgress`, `RingLiveness`, `RingPairing`);
  `SynchronousSends` is about both.
- `NcclWait`, `NcclEvents`: the polling loops and the events of the NCCL backend. `AllToAll`: the
  grouped block exchange.
- `Ownership`: one ledger of who holds which library handle; `Channels` and `Communicators` are proved
  against it. `SplitRanks`: ranks after a split.

Elements are exact integers, execution-space work is in order (a fence is synchronous), and a wait
is a step that is enabled once its operations are complete.

Nine claims one might make of the code are false as they stand; each is proved with its exact condition:

- Raw and packed sides agree element by element exactly when they share a wire order
  (`StridedView.DeliveryTheorem`; a 2x2 view that is not delivered is `StridedView.TransposedDelivery`).
- Counts are handed to MPI as ints, so delivery also needs a size that fits one, and nothing else
  (`Counts.HandedDeliveryTheorem`).
- The datatype cache, whose key narrows strides to int, is right for all histories exactly when no
  stride reaches 2^32 (`TypeCache.CacheTheorem`), and exactly when none exceeds 2^32 if no view overlaps
  itself (`TypeCache.PlainCacheTheorem`).
- The NCCL `wait_all`, which decrements its counter again for a request it has already seen
  complete, waits for all requests under every schedule exactly when there is at most one
  (`NcclWait.WrittenWaits`); counting each request once repairs it (`NcclWait.OnceWaits`).
- The NCCL alltoall multiplies rank and count as ints: its offsets are those of the blocks exactly when
  (ranks - 1) * count fits an int (`AllToAll.OffsetTheorem`; 3 ranks and blocks of 2^30 elements are
  `AllToAll.WrappedOffset`).
- The size guards of the MPI alltoall imply that all blocks fit, for all extents, exactly when the
  products do not wrap (`AllToAll.GuardTheorem`; `AllToAll.GuardWraps`).
- What passes them is exchanged whole exactly when the count fits an int (`AllToAll.CountTheorem`).
- The k-th receive of a channel gets the k-th send exactly when starts begin their requests in order
  or a channel has one pair (`RingPairing.PairingTheorem`); section 3.9 of MPI 3.1 promises no order,
  and without one the multiset of messages of a cycle is still delivered (`RingDelivery.ChannelDelivered`).
- The defaulted moves of the NCCL request copy the raw event. Once all requests are gone an event has
  been destroyed once, plus once per copy, minus once per overwriting assignment
  (`NcclEvents.DestroyedTimes`), so each exactly once iff copies and overwrites balance
  (`NcclEvents.OnceTheorem`), and without assignments iff no move was from a request that held an event
  (`NcclEvents.MoveTheorem`).

The comment at `src/KokkosComm/traits.hpp:57` calls the span the distance between the elements of
lowest and highest address; the code ships `span` elements and compares it with `size`, so the model
takes it to be one more than that distance, and 0 for an empty view.

## Model

| member | source | states |
|---|---|---|
| MixedRadix.IndexAtPosition | unit_tests/view_utils.hpp:35-41 | the packed position of a multi-index lies below the product of the extents and its mixed-radix digits give the index back, any rank, both layouts |
| MixedRadix.PositionIndexAt | unit_tests/view_utils.hpp:35-41 | the other direction: positions and multi-indices correspond one to one |
| MixedRadix.PositionIsDot | src/KokkosComm/impl/contiguous.hpp:17-41 | the packed layout of the allocated view is the strided mapping with packed strides |
| StridedView.ContiguityTheorem | src/KokkosComm/traits.hpp:47-102 | for an injective view, product of extents equals span iff its offsets are exactly 0..span-1, each once |
| StridedView.RawCover | src/KokkosComm/mpi/isend.hpp:39-44 | shipping span elements raw sends every element of the view and nothing else |
| StridedView.AddrInSpan | src/KokkosComm/traits.hpp:55-62 | every element lies within span elements of the data pointer |
| StridedView.WireAt | src/KokkosComm/mpi/isend.hpp:38-56 | sending puts every element at its wire position, raw or packed |
| StridedView.WireDepends | src/KokkosComm/mpi/isend.hpp:38-56 | what is sent depends on the elements of the view only |
| StridedView.WirePosInjective | src/KokkosComm/mpi/isend.hpp:38-56 | no two elements travel at the same position |
| StridedView.WirePosOnto | src/KokkosComm/mpi/isend.hpp:38-56 | some element travels at every position |
| StridedView.ReceiveAt | src/KokkosComm/mpi/irecv.hpp:28-46 | receiving takes every element from its wire position, raw or unpacked |
| StridedView.ReceiveFrame | src/KokkosComm/mpi/irecv.hpp:28-46 | receiving writes nothing outside the view, not even the gaps of a strided one |
| StridedView.Delivered | src/KokkosComm/mpi/irecv.hpp:28-46 | with a common wire order rv(i...) is sv(i...) for every index and the rest of the allocation is untouched, in all four contiguous/strided combinations |
| StridedView.DeliveryTheorem | src/KokkosComm/mpi/irecv.hpp:28-46 | delivery is right for all contents iff the two sides share a wire order |
| StridedView.Misdelivered | src/KokkosComm/mpi/irecv.hpp:28-46 | a dimension of extent two or more on which the sides disagree breaks delivery for some contents |
| StridedView.RankOneOrder | src/KokkosComm/mpi/irecv.hpp:28-46 | views of rank at most one always share a wire order |
| StridedView.PackedOrder | src/KokkosComm/mpi/irecv.hpp:28-46 | so do views that, where shipped raw, already use the packed layout |
| StridedView.TransposedDelivery | src/KokkosComm/mpi/irecv.hpp:28-46 | a concrete 2x2 pair of views that is not delivered |
| Counts.Handed | src/KokkosComm/mpi/isend.hpp:25-28 | the int handed over never exceeds the size, and is the size iff that fits an int |
| Counts.WholeArrives | src/KokkosComm/mpi/irecv.hpp:28-46 | a message whose size fits an int arrives as if counts were unbounded |
| Counts.CutShort | src/KokkosComm/mpi/irecv.hpp:28-46 | a smaller count leaves an element undelivered for some contents, in all four contiguous/strided combinations |
| Counts.HandedDeliveryTheorem | src/KokkosComm/mpi/irecv.hpp:28-46 | with the narrowed count, delivery is right for all contents iff the two sides share a wire order and the size fits an int |
| Packer.Pack | src/KokkosComm/mpi/impl/packer.hpp:42-48 | packing fills a fresh buffer with the elements in packed order |
| Packer.UnpackInto | src/KokkosComm/mpi/impl/packer.hpp:50-54 | unpacking writes every buffer element to its place in the view and nothing else, in place |
| HVector.HvectorAt | src/KokkosComm/mpi/impl/types.hpp:46-53 | entry r of copy q of an hvector lies at the inner displacement plus q strides |
| HVector.DigitsSnoc | src/KokkosComm/mpi/impl/types.hpp:46-53 | the digit of the last dimension counts whole copies of the lower ones |
| HVector.TypeMap | src/KokkosComm/mpi/impl/types.hpp:46-53 | the nested type has product-of-extents entries, the k-th at sizeof times the sum of stride times digit, dimension 0 fastest, any rank |
| HVector.TypeOrder | src/KokkosComm/mpi/impl/types.hpp:40-54 | the type names the view's elements in packed order with dimension 0 fastest |
| HVector.TypedSend | src/KokkosComm/mpi/impl/types.hpp:40-54 | sending through the type transmits what packing with dimension 0 fastest produces |
| HVector.TypedReceive | src/KokkosComm/mpi/impl/types.hpp:40-54 | receiving through the type leaves what unpacking leaves |
| HVector.TypedDelivery | src/KokkosComm/mpi/impl/types.hpp:40-54 | with types on both sides every element arrives whatever the strides |
| TypeCache.MakeKey | src/KokkosComm/mpi/impl/types.hpp:29-33 | the key alternates narrowed extents and strides, entry by entry |
| TypeCache.BuildType | src/KokkosComm/mpi/impl/types.hpp:46-53 | the wrapping loop builds the nested type of the view |
| TypeCache.Cache.ViewMpiType | src/KokkosComm/mpi/impl/types.hpp:22-59 | a call answers as the specification over histories says; the library builds a type exactly if the key is not cached yet, and the keys it was asked to build are those of the specification |
| TypeCache.BuiltOnce | src/KokkosComm/mpi/impl/types.hpp:34-58 | over any history each key that was asked for is built exactly once and no other is |
| TypeCache.KeyInjective | src/KokkosComm/mpi/impl/types.hpp:26-33 | within the bound two calls with one key are the same call |
| TypeCache.CachedRight | src/KokkosComm/mpi/impl/types.hpp:34-58 | within the bound what the cache holds under a key is the type a fresh build would give |
| TypeCache.Collision | src/KokkosComm/mpi/impl/types.hpp:29-36 | two strides that are 2^32 apart share a key and the second view is given the wrong type, at any rank; from stride 1 on neither view overlaps itself |
| TypeCache.CacheTheorem | src/KokkosComm/mpi/impl/types.hpp:25-58 | every answer after every history is the fresh type iff the rank is 0 or all strides stay below 2^32 |
| TypeCache.PlainKeys | src/KokkosComm/mpi/impl/types.hpp:26-33 | up to strides of 2^32, two views that do not overlap themselves and share a key have the same type |
| TypeCache.PlainCacheTheorem | src/KokkosComm/mpi/impl/types.hpp:25-58 | for views that do not overlap themselves every answer is the fresh type iff the rank is 0 or no stride exceeds 2^32 |
| Requests.Request.ExecuteAllCallbacks | src/KokkosComm/mpi/request.hpp:101-106 | all callbacks run in registration order, their effect on memory is the composition of theirs, and the list is empty after |
| Requests.Request.ExtendViewLifetime | src/KokkosComm/mpi/request.hpp:60-66 | a managed view is retained, an unmanaged one is not |
| Requests.Request.Wait | src/KokkosComm/mpi/request.hpp:70-77 | wait nulls the handle and runs all callbacks |
| Requests.Request.Test | src/KokkosComm/mpi/request.hpp:83-94 | test reports completion or inactivity, acts like wait then, and otherwise changes nothing |
| Requests.WaitAll | src/KokkosComm/mpi/request.hpp:125-144 | all callbacks of all requests run, list after list, and the handles are not written back |
| Requests.WaitAny | src/KokkosComm/mpi/request.hpp:150-172 | one complete request is picked and only its callbacks run; none is reported iff no request is active |
| Requests.RunAppend | src/KokkosComm/mpi/request.hpp:101-106 | running two lists one after the other is running their concatenation |
| Requests.FlattenAppend | src/KokkosComm/mpi/request.hpp:141-143 | the lists of several requests are run in the order of the requests |
| RequestRuns.CallbacksRunOnce | src/KokkosComm/mpi/request.hpp:55-106 | in every run of registering, moving, waiting, testing and destroying, each callback runs at most once, those of one request's list in registration order wherever the list is moved, and so those run for one operation |
| RequestRuns.RanAfterCompletion | src/KokkosComm/mpi/request.hpp:70-106 | a callback runs only once the operation its request stands for is complete, and that is the one it was registered for, if there was one |
| RequestRuns.EveryCallbackAccounted | src/KokkosComm/mpi/request.hpp:38-106 | a registered callback has run, or waits on exactly one request, or went with its request, never two of these |
| RequestRuns.BuffersStay | src/KokkosComm/mpi/request.hpp:60-66 | while a request stands for an operation every managed buffer the library was given is held by its callback list |
| RequestRuns.CanFinish | src/KokkosComm/mpi/request.hpp:70-77 | from every reachable state a usable request can be finished, and then everything pending on it has run |
| RequestRuns.WaitAllRuns | src/KokkosComm/mpi/request.hpp:141-143 | the wait_all step appends exactly the pending lists of its requests, in order |
| RequestRuns.StepOk | src/KokkosComm/mpi/request.hpp:38-172 | every operation keeps the invariant behind these |
| RequestSteps.WaitAllStep | src/KokkosComm/mpi/request.hpp:125-144 | wait_all runs the pending lists of its requests one after the other, in order, empties each and changes no other request |
| RequestSteps.WaitAnyStep | src/KokkosComm/mpi/request.hpp:150-172 | wait_any runs the list of the request picked, empties it and changes no other request |
| RequestSteps.WaitStep | src/KokkosComm/mpi/request.hpp:70-77 | wait runs the list of its request, empties it, nulls the handle and changes no other request |
| RequestSteps.TestStep | src/KokkosComm/mpi/request.hpp:83-94 | test does what wait does if that would return at once, else nothing |
| RequestSteps.MoveStep | src/KokkosComm/mpi/request.hpp:39-42 | a move takes handle and callbacks along, drops what the target had pending and runs nothing |
| RequestSteps.DestroyStep | src/KokkosComm/mpi/request.hpp:32-33 | destroying a request drops what is pending on it and runs nothing |
| RequestSteps.LaunchStep | src/KokkosComm/mpi/request.hpp:51-66 | a launch adds one operation on the given buffers and the callbacks, in order |
| RequestSteps.RegisterStep | src/KokkosComm/mpi/request.hpp:55-66 | registering adds one callback at the end of the list; an unmanaged view adds none |
| RequestRefinement.Isend | src/KokkosComm/mpi/isend.hpp:38-56 | the request of a send is a launch whose callbacks hold the buffer the library was given, and the view itself if it is managed |
| RequestRefinement.Irecv | src/KokkosComm/mpi/irecv.hpp:28-46 | so is that of a receive; the unpacking callback holds both the view and the staging buffer |
| RequestRefinement.Ireduce | src/KokkosComm/mpi/reduce.hpp:59-105 | so is that of a reduction, for the send and the receive buffer, in all four branches |
| RequestRefinement.LaunchMatches | src/KokkosComm/mpi/request.hpp:55-66 | any request whose callbacks hold all managed buffers is the result of a launch the runs allow |
| RequestRefinement.AddCallback | src/KokkosComm/mpi/request.hpp:55 | registering on the object is the registering step of the runs |
| RequestRefinement.Wait | src/KokkosComm/mpi/request.hpp:70-77 | waiting on the object is the waiting step |
| RequestRefinement.Test | src/KokkosComm/mpi/request.hpp:83-94 | testing the object is the testing step, and reports whether it finished |
| RequestRefinement.WaitAll | src/KokkosComm/mpi/request.hpp:125-144 | wait_all on the objects is the wait_all step for all of their counterparts |
| RequestRefinement.WaitAny | src/KokkosComm/mpi/request.hpp:150-172 | wait_any on the objects is the wait_any step for the index it reports; it reports none iff none of them stands for an operation |
| PointToPoint.Isend | src/KokkosComm/mpi/isend.hpp:38-56 | the library is given the wire contents of the view, counted in an int; what must live longer is retained, packed buffer first |
| PointToPoint.Irecv | src/KokkosComm/mpi/irecv.hpp:28-46 | the library is given the view itself or a fresh buffer of its size with the unpacking registered, counted in an int |
| PointToPoint.Exchange | src/KokkosComm/mpi/irecv.hpp:28-46 | one message through both waits is refused if the count is negative and else leaves what sending its first elements then receiving says, also within one allocation |
| PointToPoint.SendRecv | src/KokkosComm/mpi/irecv.hpp:28-46 | after both waits rv(i...) is sv(i...) for every index and memory outside rv is unchanged, for sizes that fit an int |
| Reduce.ReduceBlocking | src/KokkosComm/mpi/reduce.hpp:139-173 | the blocking reduction, in every mixture of contiguous and strided views: at the root element k of rv is what running the operator up over element k of all ranks arrives at (with addition, the sum) and nothing else changes; at any other rank nothing changes |
| Reduce.Ireduce | src/KokkosComm/mpi/reduce.hpp:59-105 | what the library is given and which callbacks are registered, in all four branches |
| Reduce.IreduceWait | src/KokkosComm/mpi/reduce.hpp:59-105 | ireduce followed by wait leaves exactly what the blocking reduction leaves, stated in the same way |
| Reduce.RootReduced | src/KokkosComm/mpi/reduce.hpp:59-105 | root's rv(k) is what running the operator up over sv_0(k), sv_1(k), ... arrives at, with addition their sum, for any number of ranks, any strides and any size that fits an int |
| Reduce.RootFrame | src/KokkosComm/mpi/reduce.hpp:59-105 | gaps and surroundings of the root's rv are unchanged |
| Reduce.Contributed | src/KokkosComm/mpi/reduce.hpp:64-67 | the k-th thing a rank sends is its k-th element |
| Reduce.FoldRunsUp | src/KokkosComm/mpi/reduce.hpp:59-105 | the combination of a list is what running the operator up over it, from the first value on, arrives at |
| Reduce.FoldSums | src/KokkosComm/mpi/reduce.hpp:59-105 | with addition it is the sum |
| Network.PostInv | src/KokkosComm/mpi/isend.hpp:31-32 | posting keeps the stream invariant: matched and waiting operations together are the posted ones in order (section 3.5 of MPI 3.1) |
| Network.MatchInv | src/KokkosComm/mpi/irecv.hpp:31-34 | matching keeps it |
| Network.NonOvertaking | src/KokkosComm/mpi/impl/tags.hpp:8 | the j-th receive of a stream is matched with its j-th send, all messages of a pair of ranks sharing one tag |
| Network.UnmatchedProgress | src/KokkosComm/mpi/irecv.hpp:31-34 | an unmatched operation can be matched unless the other side has posted too few |
| NeighbourExchange.SlotsAgree | perf_tests/mpi/test_2d_halo.cpp:41-51 | the sends from a to b and the receives at b from a are the same slots in the same order, so posting order keeps messages of one stream apart |
| NeighbourExchange.MatchedSlots | perf_tests/mpi/test_2d_halo.cpp:41-51 | every match pairs slot k of a rank with slot k of the neighbour it fills |
| ExchangeDelivery.StepOk | perf_tests/mpi/test_2d_halo.cpp:41-54 | every step of every rank and of the network keeps the delivery invariant |
| ExchangeDelivery.ExchangeDelivered | perf_tests/mpi/test_2d_halo.cpp:41-54 | after a rank's wait returned every slot holds its source rank's send view of the start |
| ExchangeDelivery.ExchangeFrame | perf_tests/mpi/test_2d_halo.cpp:41-54 | cells outside the receive views are never touched |
| ExchangeProgress.StepWorks | perf_tests/mpi/test_2d_halo.cpp:41-54 | every step decreases a measure |
| ExchangeProgress.Progress | perf_tests/mpi/test_2d_halo.cpp:41-54 | while a rank has not returned some step is enabled, in synchronous mode too |
| ExchangeProgress.NoDeadlock | perf_tests/mpi/test_2d_halo.cpp:41-54 | a run that cannot go on has every rank back from its wait |
| ExchangeProgress.Completes | perf_tests/mpi/test_2d_halo.cpp:41-54 | every run can be continued to one in which every rank is back from its wait |
| HaloGrid.Torus | perf_tests/mpi/test_2d_halo.cpp:21-27 | the neighbour formulas are mutually inverse on the torus of rs * rs ranks, every rs >= 1 |
| HaloGrid.NeighbourRanks | perf_tests/mpi/test_2d_halo.cpp:21-27 | for the rank at (rx, ry) the destinations and sources of the four slots are the ranks at rx + 1, rx - 1, ry + 1 and ry - 1, each modulo rs, written out |
| HaloGrid.CellPosition | perf_tests/mpi/test_2d_halo.cpp:58-77 | the cells lie in the grid as LayoutRight has them |
| HaloGrid.ViewsFit | perf_tests/mpi/test_2d_halo.cpp:32-39 | all eight subviews lie in the grid, are injective, match in extents and share a wire order |
| HaloGrid.GhostsDisjoint | perf_tests/mpi/test_2d_halo.cpp:32-39 | the ghost slices overlap neither each other nor a sent slice |
| Halo.PushRequests | perf_tests/mpi/test_2d_halo.cpp:20-51 | the eight requests pushed, in order, each with the rank it goes to or comes from written out |
| Halo.SendRecv | perf_tests/mpi/test_2d_halo.cpp:20-51 | those pushes are the program the state machine runs for the rank at (rx, ry) |
| Halo.SetupValid | perf_tests/mpi/test_2d_halo.cpp:20-77 | the halo exchange is a valid neighbour exchange for every torus side and grid size |
| Halo.HaloReturned | perf_tests/mpi/test_2d_halo.cpp:20-54 | in every interleaving, once wait_all returned, every point of all four slots has arrived from the rank HaloGrid.NeighbourRanks gives for it |
| Halo.HaloDeliveredX | perf_tests/mpi/test_2d_halo.cpp:32-35 | so at the rank at (rx, ry) ghost column 0 (no corners) is column nx of the rank at (rx - 1 mod rs, ry), and column nx + 1 is column 1 of the rank at (rx + 1 mod rs, ry) |
| Halo.HaloDeliveredY | perf_tests/mpi/test_2d_halo.cpp:36-39 | and ghost row 0 is row ny of the rank at (rx, ry - 1 mod rs), row ny + 1 row 1 of the rank at (rx, ry + 1 mod rs) |
| Halo.HaloFrame | perf_tests/mpi/test_2d_halo.cpp:32-39 | interior and corners are unchanged at every moment of every run |
| Halo.HaloEnds | perf_tests/mpi/test_2d_halo.cpp:41-54 | every run ends after at most 33 steps a rank, with all ranks returned, even if sends complete only when matched |
| Halo.HaloCompletes | perf_tests/mpi/test_2d_halo.cpp:41-54 | every interleaving so far can be continued until every rank is back from its wait_all |
| Ring.RingNeighbours | unit_tests/mpi/test_channel_p2p.cpp:39-40 | successor and predecessor are the modular neighbours and undo each other |
| RingSafety.StepOk | src/KokkosComm/mpi/channel.hpp:54-96 | every step of starting, beginning in any order, matching and completing keeps the invariant |
| RingDelivery.CycleDelivered | src/KokkosComm/mpi/channel.hpp:83-96 | a completed receive of cycle x was given data its predecessor sent in cycle x and no other; with ordered starts slot k got slot k |
| RingDelivery.ChannelDelivered | src/KokkosComm/mpi/channel.hpp:83-96 | after the wait of a cycle the receive buffers hold the multiset of the predecessor's messages of that cycle, with ordered starts pair by pair, any ring size, pair count and number of cycles |
| RingDelivery.SkewBound | src/KokkosComm/mpi/channel.hpp:83-96 | in every reachable state a rank has started at most size - 1 cycles more than its successor |
| RingDelivery.FlightBound | src/KokkosComm/mpi/channel.hpp:83-96 | at most size messages per registered pair are ever in flight on a link, that is, sent and not yet received |
| RingProgress.Progress | src/KokkosComm/mpi/channel.hpp:83-96 | while the rank furthest behind is in a cycle some step inside the cycle is enabled, in synchronous mode too |
| RingProgress.NoDeadlock | src/KokkosComm/mpi/channel.hpp:83-96 | a run stuck but for starting cycles beyond the goal has every rank at the goal |
| RingLiveness.InnerWorks | src/KokkosComm/mpi/channel.hpp:83-96 | every step inside a cycle decreases a measure, so between two starts there are finitely many |
| RingLiveness.CyclesComplete | src/KokkosComm/mpi/channel.hpp:83-96 | whatever has happened so far, the ring can run on until every rank has completed any number of cycles none is past yet |
| SynchronousSends.ExchangeSendsMatched | perf_tests/mpi/test_2d_halo.cpp:41-54 | in synchronous mode a completed send of the exchange is paired with a receive, in every reachable state |
| SynchronousSends.RingSendsMatched | src/KokkosComm/mpi/channel.hpp:83-96 | so is a completed send of a channel |
| RingPairing.PairingTheorem | src/KokkosComm/mpi/channel.hpp:83-96 | in every ring, whatever its buffers hold at first, the k-th receive always gets the k-th send iff starts are ordered or a channel has one pair |
| RingPairing.CrossedRun | src/KokkosComm/mpi/channel.hpp:83-89 | for any ring and any two or more pairs, a run of an unordered start that crosses a pair |
| NcclWait.WaitAll | src/KokkosComm/nccl/request.hpp:137-163 | the polling loop, counting as written or once per request, ends under every schedule in the specified state |
| NcclWait.CallbacksOnce | src/KokkosComm/nccl/request.hpp:149-162 | either way each callback runs at most once, in order, after its event completed |
| NcclWait.OnceWaits | src/KokkosComm/nccl/request.hpp:137-163 | counting once per request, the loop returns only with every event complete and every callback run once |
| NcclWait.WrittenWaits | src/KokkosComm/nccl/request.hpp:149-154 | the written loop does so under every schedule iff there is at most one request |
| NcclWait.ReturnsEarly | src/KokkosComm/nccl/request.hpp:150-154 | a schedule for any two or more requests under which it returns with one incomplete |
| NcclWait.WaitAny | src/KokkosComm/nccl/request.hpp:168-193 | the first request found complete is reported and only its callbacks run; none is reported iff the list is empty |
| NcclWait.Request.ExecuteAllCallbacks | src/KokkosComm/nccl/request.hpp:114-119 | the callbacks run in order and are cleared |
| NcclEvents.Request.CaptureStreamState | src/KokkosComm/nccl/request.hpp:34-40 | a captured event is destroyed before a new one is made |
| NcclEvents.DestroyedTimes | src/KokkosComm/nccl/request.hpp:34-56 | once all requests are gone an event was destroyed once, plus once for each move that copied it, minus once for each assignment that overwrote it |
| NcclEvents.OnceTheorem | src/KokkosComm/nccl/request.hpp:34-56 | so every event was destroyed exactly once iff each was copied as often as overwritten |
| NcclEvents.MoveTheorem | src/KokkosComm/nccl/request.hpp:34-54 | in runs without assignment iff no move was from a request that held an event |
| NcclEvents.EventsDestroyedOnce | src/KokkosComm/nccl/request.hpp:34-47 | in runs without moves no event is destroyed twice, and each exactly once when all requests are gone |
| NcclEvents.MovedEventTwice | src/KokkosComm/nccl/request.hpp:43-54 | a run with a move construction destroys one event twice |
| NcclEvents.AssignedEventLost | src/KokkosComm/nccl/request.hpp:43-56 | a run with a move assignment never destroys one event |
| AllToAll.OffsetTheorem | src/KokkosComm/nccl/alltoall.hpp:39-42 | the int products are the offsets of the peers' blocks, for all sends and receives issued, iff (ranks - 1) * count fits an int |
| AllToAll.WrappedOffset | src/KokkosComm/nccl/alltoall.hpp:39-42 | at 3 ranks and blocks of 2^30 elements the last send and receive start 2^31 elements before the buffer |
| AllToAll.IssueGroup | src/KokkosComm/nccl/alltoall.hpp:39-42 | the issuing loop produces the specified sends and receives, and unless an offset wraps names only blocks below ranks * count |
| AllToAll.GroupPairs | src/KokkosComm/nccl/alltoall.hpp:38-43 | the receive from i at j is paired with the send to j at i and nothing else |
| AllToAll.GroupEnd | src/KokkosComm/nccl/alltoall.hpp:35-43 | unless an offset wraps, place i*count+k of a rank's receive buffer becomes place j*count+k of rank i, and every place from ranks*count on keeps its value |
| AllToAll.GroupReceivedAt | src/KokkosComm/nccl/alltoall.hpp:35-43 | unless an offset wraps, what lies at the offset of a receive is what lay at the offset of the send it is paired with |
| AllToAll.ReceivedAt | src/KokkosComm/mpi/alltoall.hpp:86-89 | after the exchange place i*count+k at rank j is place j*count+k of rank i |
| AllToAll.AfterIsExchanged | src/KokkosComm/nccl/alltoall.hpp:39-42 | the buffer the methods are proved to leave holds rank i's place j*count+k at place i*count+k, for every i and k, and its old tail |
| AllToAll.SlotOnce | src/KokkosComm/mpi/alltoall.hpp:86-89 | a place in the receive buffer belongs to one block only |
| AllToAll.Involution | src/KokkosComm/mpi/alltoall.hpp:86-89 | exchanging twice restores every rank's input |
| AllToAll.GuardTheorem | src/KokkosComm/mpi/alltoall.hpp:73-84 | for all counts and communicator sizes a caller can pass, passing the guards means all blocks fit, for all extents, iff no product wraps |
| AllToAll.GuardWraps | src/KokkosComm/mpi/alltoall.hpp:73-84 | with 2 ranks and counts of 2^63 two empty views pass |
| AllToAll.CountTheorem | src/KokkosComm/mpi/alltoall.hpp:86-89 | whole blocks are exchanged, whatever the buffers hold, iff the count fits the int it is handed over as |
| AllToAll.MpiAlltoall | src/KokkosComm/mpi/alltoall.hpp:86-89 | the library's exchange leaves the same |
| AllToAll.Alltoall | src/KokkosComm/mpi/alltoall.hpp:65-89 | the first failing guard is reported and nothing changes; else the narrowed count of elements per block is exchanged, place by place, or nothing if it is negative |
| Ownership.StepOk | src/KokkosComm/mpi/channel.hpp:27-51 | acquiring, releasing, moving and destroying keep one owner per handle |
| Ownership.OneOwner | src/KokkosComm/mpi/channel.hpp:99-108 | a handle is with one owner, listed once, or was freed exactly once |
| Channels.Channel.SendInit | src/KokkosComm/mpi/channel.hpp:54-66 | one send to the destination rank, with the channel's tag and communicator, is registered, listed last, and the statuses grow along |
| Channels.Channel.RecvInit | src/KokkosComm/mpi/channel.hpp:69-81 | one receive from the source rank, with the channel's tag and communicator, is registered, listed last, and the statuses grow along |
| Channels.Channel.ReleaseRequests | src/KokkosComm/mpi/channel.hpp:99-108 | every request is freed in order and both lists are emptied |
| Channels.Channel.Assign | src/KokkosComm/mpi/channel.hpp:40-51 | the target frees its own requests and takes the source's, which is left empty; self-assignment changes nothing |
| Channels.RequestsOwned | src/KokkosComm/mpi/channel.hpp:27-108 | in every run each request belongs to exactly one channel until freed, is freed at most once, and never while active |
| Channels.RequestsAddressed | src/KokkosComm/mpi/channel.hpp:32-81 | in every run, whatever was moved, each request a channel holds is a send to its destination or a receive from its source under its tag and communicator |
| Channels.InitRegisters | src/KokkosComm/mpi/channel.hpp:54-81 | the entry each registering step of a run adds, written out |
| Channels.StartAndWait | src/KokkosComm/mpi/channel.hpp:83-96 | a start makes exactly the channel's requests active, a wait makes them inactive and keeps them |
| Channels.NothingLeaks | src/KokkosComm/mpi/channel.hpp:27-108 | once all channels are gone each registered request has been freed exactly once |
| Channels.StatusesMatch | src/KokkosComm/mpi/channel.hpp:64-79 | every channel always has as many statuses as requests |
| Communicators.Communicator.FromMade | src/KokkosComm/mpi/communicator.hpp:41-71 | split and duplicate give an owning communicator on a new handle, or nothing |
| Communicators.Communicator.Assign | src/KokkosComm/mpi/communicator.hpp:101-116 | assignment frees what was owned, takes over the other and leaves it null, of size and rank 0 and not owning; self-assignment changes nothing |
| Communicators.Communicator.Move | src/KokkosComm/mpi/communicator.hpp:94-99 | the new object takes over and the other is left null, of size and rank 0 and not owning |
| Communicators.Communicator.Destroy | src/KokkosComm/mpi/communicator.hpp:79-86 | the handle is freed iff it is owned and, for MPI, not a predefined one |
| Communicators.BorrowedNeverFreed | src/KokkosComm/mpi/communicator.hpp:79-86 | in every run, for both backends, only handles a factory made are freed |
| Communicators.MadeOwned | src/KokkosComm/mpi/communicator.hpp:79-116 | a made handle has exactly one owner and is not freed, or has none and was freed exactly once |
| Communicators.NothingLeaks | src/KokkosComm/nccl/communicator.hpp:73-105 | once all objects are gone every made handle has been freed exactly once |
| SplitRanks.RankOrder | src/KokkosComm/nccl/communicator.hpp:36-50 | new ranks lie below the group's size; one is smaller iff its key is, or the keys are equal and its old rank is smaller |
| SplitRanks.RankOnto | src/KokkosComm/nccl/communicator.hpp:36-50 | every rank below the group's size is some member's |
| SplitRanks.DuplicateKeepsRanks | src/KokkosComm/nccl/communicator.hpp:58-70 | duplication as split(0, rank) keeps the size and every process's rank, for every size |
| Oracle.Horner | unit_tests/view_utils.hpp:35-38 | the fold computes the row-major position at any rank |
| Oracle.InitView | unit_tests/view_utils.hpp:75-93 | initialisation writes each element's linear index in place |
| Oracle.CountErrors | unit_tests/view_utils.hpp:95-115 | the count is the number of indices whose element differs from them |
| Oracle.OracleSound | unit_tests/view_utils.hpp:95-115 | for an initialised sent view the count is 0 iff rv(i...) is sv(i...) for every index |
| DeliveryTest.InitialisedSound | unit_tests/view_utils.hpp:75-115 | after initialising sv the count on rv is 0 iff rv(i...) is sv(i...) for every index |
| DeliveryTest.TestExact | unit_tests/test_send_recv.cpp:32-40 | the one initialised content decides: after it was sent no errors are counted iff the sides share a wire order |
| DeliveryTest.SendRecvTest | unit_tests/test_send_recv.cpp:32-40 | initialise, exchange, count: a test that passes shows delivery for all contents, and any pair of views that delivers all contents passes |
| Oracle.RearrangementDetected | unit_tests/view_utils.hpp:95-115 | rearranged elements are counted one by one, so only the identity passes |
| Oracle.NonContigStrided | unit_tests/view_utils.hpp:67-73 | the non-contiguous test views are shipped raw iff they have fewer than two elements |
| Oracle.NonContigInjective | unit_tests/view_utils.hpp:67-73 | and never overlap themselves |
| Oracle.NonContigAt | unit_tests/view_utils.hpp:67-73 | their element i is the one at (i..., 1) of the array they are half of |

## Left out

- Type and operator tables, concepts and static assertions: finite case lists a compiler decides.
- Single-call wrappers (broadcast, allgather, allreduce, scan, barrier, blocking send and receive): the result is the library's.
- Ready-mode sends, profiling regions, error printing, abort paths and vendor branches; a failing library call ends the program, so success is assumed where `fail_if` checks it.
- Floating point: elements are exact integers and the reduction operator is any function of two of them.
- Copying through execution spaces: `deep_copy` and `fence` are synchronous and copy element by element.
- PointToPoint.SendRecv: sizes up to INT_MAX only, as Counts.HandedDeliveryTheorem demands; PointToPoint.Exchange says what happens beyond.
- DeliveryTest.SendRecvTest: sizes from 1 up to INT_MAX, for the same reason.
- Reduce.ReduceBlocking: sizes up to INT_MAX only, since the count is handed over as an int.
- Reduce.Ireduce: sizes up to INT_MAX only; the split of the code into a send side and a receive side, which it repeats in both branches, is factored; non-root receive views are not given to the library for writing.
- Reduce.IreduceWait: sizes up to INT_MAX only.
- Reduce.RootReduced: sizes up to INT_MAX only.
- Reduce.RootFrame: sizes up to INT_MAX only.
- Halo.HaloReturned: a message is one unit in the network, so a slice must have at most INT_MAX elements.
- RingDelivery.ChannelDelivered: likewise for what a slot ships.
- Oracle.Horner: the 32-bit `int` that holds the value in the tests is unbounded here, and so is the element type it is converted to.
- TypeCache.Cache.ViewMpiType: extents must fit an int, as the library's count parameter demands; byte strides are unbounded.
- The `MpiDatatype` packer repeats the fold of `view_mpi_type`; only the latter is modelled.
- Requests.WaitAll: a request whose handle was consumed through a copy keeps a stale handle; using it again is not modelled, and RequestRuns disables it.
- RequestRuns.BuffersStay: claims nothing once a request is destroyed or assigned over while its operation is incomplete.
- Exceptions thrown by callbacks, and callbacks that touch their own request.
- Threads: each rank runs one thread, interleaved with the others and with the network.
- Network: one communicator, no wildcards, no truncation, no cancellation, equal counts on both sides; a message is one unit.
- Ring: persistent channels ship `span` elements without looking at contiguity, so a slot's buffer stands for what the view holds as it lies; the application writes send buffers between cycles only.
- RingProgress.NoDeadlock: says nothing of a rank that never starts its next cycle; its neighbours then wait, as the protocol implies.
- NCCL `reduce` on non-root ranks with a strided receive view unpacks a buffer nobody wrote: nothing is claimed.
- AllToAll.GroupEnd: claims nothing once an offset wraps (int overflow is taken to wrap in two's complement); the memory then read and written is not the buffers'.
- AllToAll.Alltoall: the number of elements exchanged in all must stay below 2^64; send and receive counts are equal, as matching requires; the in-place variant is not modelled separately.
- Channels.Channel.ReleaseRequests: the null-handle branch cannot be taken, since registration fails loudly; free is called once no operation of the channel is active.
- NcclEvents.MoveTheorem: claims nothing for runs with assignments, which NcclEvents.OnceTheorem covers by counting.
- Communicators.Communicator.FromMade: size and rank of a new communicator are the library's answers and come in as parameters.
