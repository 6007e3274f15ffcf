# RabbitStreamer: a verified model

RabbitStreamer is a peer-to-peer media streaming suite. A capture server writes numbered blocks
to a super peer, which serves them to peers over TCP; a tracker knows which peer has which blocks
and introduces peers to each other over UDP. This project models the parts that everything else
rests on and proves what they do:

- **Interval arrays** (`runs`, `run_insertion`, `run_wrapping`, `run_deletion`, `run_intersection`,
  `run_algebra`, `run_sorting`, `interval_array`): sets of block ids as sorted runs in a growable array, changed in
  place, with 32-bit arithmetic and a 16-bit run counter. The class refines functions on run
  lists for *every* array and argument; lemmas then say exactly when those functions are set algebra.
- **The buffer queue** (`ring`, `buffer_queue`, `source_manager`): a ring of N slots, for every N,
  that is a window over the last N of an unbounded sequence of two-phase writes.
- **Serving** (`serving`): a state machine in which write rounds and the packing of blocks for many
  connections interleave freely. Its states contain the ring itself.
- **The receive buffer and framing** (`recv_geometry`, `recv_buffer`, `turning`, `framing`): no byte is
  lost, duplicated or reordered, what is dispatched does not depend on how reads cut the stream, and
  exactly when a turn dispatches, idles or breaks.
- **Streamer and message codecs** (`bytes`, `streamer`, `messages`, `codecs`, `wire_layout`,
  `delivery`): exact reserve, the position of every field, one frame per packed message, round trips,
  and both ends of a connection together.
- **The tracker** (`np_manager`, `group_draws`, `group_search`, `peer_selection`, `found_lists`,
  `peer_repeats`, `np_tracker`, `peer_examples`): deep copies in and out of the peer map, the
  randomised peer scan as a function of its draws, and the report handlers. What the tracker stores
  for a peer is at any time a function of the peer's reports since its login.

`words` holds the machine integers, `modular` the remainders by a number that varies. Wrap-around is written
out; nothing is assumed about overflow except where a statement says so.

## Where the code differs from what one would expect

The model follows the code. These are stated as lemmas or contracts:

- `DelInterval` stops after deleting a run that begins exactly at `start` and ends inside the interval
  (core/interval_array.h:162-168). `DelIsDifferenceIff` gives the exact condition for set difference.
- At 65535 runs `SafeInsert` drops the run. An insertion next to no run is lost, and so is everything
  behind a deletion in the middle of a run (`AddIsUnionIff`, `SplitAtCapacity`, `DelContainedIff`).
- Intervals whose end passes 2^32-1 are never checked for. `AddIsUnionIff` and `DelIsDifferenceIff`
  cover them too. Inserted, they break the canonical form, but `FindBlock` still answers
  exactly for the blocks of the other intervals, as long as these find room (`AlwaysAnswersValidIff`).
- `fill_buffer` measures the free space before it resets an empty buffer (core/buffer.cpp:107-111). A
  request on an empty buffer can therefore fail although the buffer is large enough; `CanHold` is the
  exact condition. A failed read of the size field is harmless, as the thread simply tries again
  (`IdleOnlyOnce`). A failed read of the rest of a message is not: `loop` ignores the result
  (protocol/sp/sp_np_connector.cpp:241), and the model ends there with `Broken`. `TurnBreaksIff` says
  when that happens, `CutBehindSizeField` gives a stream that it happens to although all of it arrives.
- Once the ring is full, `queue_buffer` already advertises the id it is about to overwrite
  (`WindowMidRound`).
- `Ts2NpPeers::pack_submsg` writes as many peers as there are super peers (core/message.cpp:720).
  `PeersExactIff` says for every pair of lists when that is right and when it is more than was reserved.
- The thirty-node limit of `get_np_address` has no effect, as its counter is never advanced
  (protocol/tracker/tracker_np_manager.cpp:187-190), so that an answer can name a peer twice:
  `AnswerNamesNobodyTwiceIff` says when, `LastPeerNamedTwice` gives an input.
  If the last draw of a round names a group already drawn, even in the same round, the scan ends,
  possibly with no peers although some match: `NoGroupIff`, `EmptyAnswerIff`, `ThirtyPeersNoAnswer`.

## Model

| member | source | states |
|---|---|---|
| Runs.CanonicalUnique | core/interval_array.h:52-59 | Two canonical run lists that denote the same blocks are the same list, so comparing bytes decides set equality |
| Runs.CoveredStretch | core/interval_array.h:76-80 | A contiguous stretch of covered blocks lies inside one maximal run |
| Runs.FindsFromIsMembership | core/interval_array.h:183-192 | The membership scan: a hit is right on every list, hit and miss are right on a canonical one |
| RunInsertion.AddFromUnion | core/interval_array.h:95-135 | From any point the scan can be at, insertion keeps the canonical form, gives exactly old blocks plus interval, and grows by at most one run |
| RunInsertion.AddIsUnionIff | core/interval_array.h:95-135 | For all 32-bit arguments: insertion is exact set union on the canonical form if and only if the interval is empty, or does not wrap and either there is a free run slot or some run touches it |
| RunInsertion.AddRefusedAtCapacity | core/interval_array.h:284-291 | At 65535 runs an interval that touches no run leaves the array unchanged |
| RunInsertion.AddWrapBreaksForm | core/interval_array.h:95-135 | A concrete wrapping interval that breaks the canonical form |
| Words.WordsWrap | core/interval_array.h:95-181 | Sums, differences and conversions of 32-bit words are those modulo 2^32 |
| RunInsertion.AddAllUnion | core/interval_array.h:95-135 | Any sequence of insertions that each find a free run slot or a run they touch, however long, denotes the union of everything inserted |
| RunInsertion.AddAllUnionIff | core/interval_array.h:95-135 | The array denotes the union at every moment of its history exactly if every insertion was accepted |
| RunInsertion.ShortHistoryAccepted | core/interval_array.h:95-135 | Histories no longer than the free run slots are always accepted |
| RunInsertion.AddAllSound | core/interval_array.h:95-135 | Even past capacity no sequence of valid insertions makes the array hold a block nobody inserted, nor exceed 65535 runs |
| RunInsertion.AddOrderIrrelevant | core/interval_array.h:52-135 | Accepted insertions covering the same blocks, in any order and grouping, end in equal arrays |
| RunInsertion.PermutedInsertions | core/interval_array.h:52-135 | Permuting a sequence of insertions ends in an equal array, as long as both orders are accepted |
| RunWrapping.FindsFromIsHasSound | core/interval_array.h:183-192 | On an array that took wrapping intervals the membership scan finds exactly the blocks of the runs that do not wrap |
| RunWrapping.AddFromAdds | core/interval_array.h:95-135 | On such an array, from any point of the scan, a valid interval adds exactly its blocks if there is room for it, and nothing otherwise |
| RunWrapping.AddIsSoundUnionIff | core/interval_array.h:95-135 | A valid interval adds exactly its blocks if and only if a run slot is free, it touches a run that does not wrap, or a wrapping run begins inside it; a wrapping interval adds no block; the order of the runs is kept |
| RunWrapping.WrappingAddEffect | core/interval_array.h:95-135 | Exactly what a wrapping insertion leaves: nothing changes, or the interval is put as it is behind the runs that begin no later |
| RunWrapping.AlwaysAnswersValidIff | core/interval_array.h:95-192 | Whatever is inserted into an empty array, at every moment `FindBlock` answers exactly for the blocks of the valid intervals, if and only if each of them found room at its turn |
| RunWrapping.AlwaysHoldsValidIff | core/interval_array.h:95-135 | The same for the blocks held; any 65535 intervals, valid or not, leave room enough |
| RunWrapping.FindsOnlyValid | core/interval_array.h:95-192 | `FindBlock` answers for no block that no valid interval held, for all intervals and even past capacity |
| RunWrapping.WrappingRunIsHarmless | core/interval_array.h:95-192 | A wrapping interval that stays in the array, hides no block and answers for none |
| RunDeletion.WeightUpdate | core/interval_array.h:155-166 | Trimming a run lowers the measure (runs plus covered blocks) that makes the deletion recursion end |
| RunDeletion.DelFromDifference | core/interval_array.h:137-181 | From any point of the scan, outside the two special cases, deletion removes exactly the interval and keeps the canonical form |
| RunDeletion.DelEffect | core/interval_array.h:137-181 | The exact effect as written: the whole interval goes, or only the run that begins exactly at its start and ends inside it |
| RunDeletion.SplitAtCapacity | core/interval_array.h:176-177 | At 65535 runs a deletion inside a run also loses the blocks behind the interval |
| RunDeletion.WrapInside | core/interval_array.h:137-181 | What a wrapping deletion does when its first block is present: keeps that block, breaks the form, or loses the split |
| RunDeletion.WrapEffect | core/interval_array.h:137-181 | Exactly what a wrapping deletion leaves: nothing changes, a run is extended downwards to the wrapped end, or a run is cut off and one from the wrapped end put behind it unless the array is full |
| RunDeletion.DelIsDifferenceIff | core/interval_array.h:137-181 | For all 32-bit arguments: deletion is exact set difference if and only if a condition holds that a caller can evaluate beforehand |
| RunDeletion.DelStopsEarlyExample | core/interval_array.h:162-168 | {[0,5),[10,15)} minus [0,20) keeps [10,15) |
| RunAlgebra.DelCovered | core/interval_array.h:137-181 | Deleting a covered stretch is always exact and adds at most one run |
| RunAlgebra.CoveredIsRefusedIff | core/interval_array.h:155-178 | A covered stretch is not deleted exactly if it needs a split and the array is full |
| RunAlgebra.DelAllDifference | core/interval_array.h:76-80 | Deleting any intervals that are each accepted at their turn is set difference, whether or not the array holds them |
| RunAlgebra.AlwaysDifferenceIff | core/interval_array.h:76-80 | It is set difference after every interval if and only if each is accepted |
| RunAlgebra.DelContainedIff | core/interval_array.h:76-80 | Deleting a contained array is set difference in the end if and only if none of its runs is refused; a refusal costs a block for good |
| RunAlgebra.RoomyArrayDeletes | core/interval_array.h:76-80 | With a free run slot for every deleted run no run of a contained array is refused |
| RunAlgebra.DeleteThenRestore | core/interval_array.h:76-135 | Deleting the runs of a contained array and inserting them again gives the original array back if and only if no deletion and no insertion is refused at its turn |
| RunAlgebra.RoomyArrayRestores | core/interval_array.h:76-135 | With a free run slot for every deleted run and one more it does |
| RunAlgebra.AndOpIsIntersection | core/core_struct.h:159-167 | and_op of two unwrapped intervals contains exactly the common blocks |
| RunAlgebra.Staircase | core/interval_array.h:86-92 | Overlapping pairs of two canonical lists, met in row order, have growing index sums |
| RunAlgebra.CountStep | core/interval_array.h:236-239 | Each run adds the cardinality of its part of the range, and parts are disjoint |
| RunAlgebra.NeighboursSuffice | core/interval_array.h:270-282 | Checking neighbours suffices for the order of all pairs |
| RunAlgebra.SortedPermutation | core/interval_array.h:203-203 | Sorting any permutation of a canonical list by start restores the list |
| RunAlgebra.CanonicalSelection | core/interval_array.h:201-205 | Any runs chosen from a canonical list and put in start order are canonical |
| RunIntersection.PiecesBound | core/interval_array.h:82-93 | Arrays of n and m runs have at most n+m-1 non-empty intersections |
| RunIntersection.PiecesCanonical | core/interval_array.h:86-92 | The non-empty pairwise intersections, in the order of the two loops, are sorted with gaps |
| RunIntersection.AddCanonical | core/interval_array.h:89-90 | Inserting the runs of a canonical list one by one rebuilds the list, cut at 65535 runs |
| RunIntersection.AndRunsResult | core/interval_array.h:82-93 | The pieces are the runs of the intersection, and the result is as many of them as an array can hold |
| RunIntersection.AndIsIntersection | core/interval_array.h:82-93 | The result is the intersection if and only if that has at most 65535 runs, as it has for n+m up to 65536; it is always canonical and never holds another block |
| RunSorting.Sort | core/interval_array.h:201-205 | The library sort: ordered by key, a permutation, the rest of the array untouched, equal keys in any order |
| IntervalArrays.IntervalArray.constructor | core/interval_array.h:34-34 | An empty array |
| IntervalArrays.IntervalArray.Copy | core/interval_array.h:36-44 | A deep copy with the capacity of the original |
| IntervalArrays.IntervalArray.Assign | core/interval_array.h:60-74 | A deep copy trimmed to the valid runs; self-assignment changes nothing |
| IntervalArrays.IntervalArray.Equals | core/interval_array.h:52-59 | Equality of the valid runs, which on canonical arrays is equality of the denoted sets |
| IntervalArrays.IntervalArray.SafeInsert | core/interval_array.h:285-312 | Inserts at a position, enlarging a full array, and drops the run at 65535 |
| IntervalArrays.IntervalArray.SafeDelete | core/interval_array.h:314-319 | Removes the run at a position |
| IntervalArrays.IntervalArray.Clear | core/interval_array.h:209-209 | Forgets all runs |
| IntervalArrays.IntervalArray.AddInterval | core/interval_array.h:95-135 | The in-place insertion refines AddRuns for every array and every argument |
| IntervalArrays.IntervalArray.DelInterval | core/interval_array.h:137-181 | The in-place deletion refines DelRuns for every array and every argument, and ends |
| IntervalArrays.IntervalArray.DeleteArray | core/interval_array.h:76-80 | Deletes the runs of a distinct array one after the other |
| IntervalArrays.IntervalArray.AndOperator | core/interval_array.h:82-93 | Fills a distinct result with the pieces of AndRuns and leaves the operands alone |
| IntervalArrays.IntervalArray.FindBlock | core/interval_array.h:183-192 | Set membership on a canonical array; a hit is right on any array |
| IntervalArrays.IntervalArray.GetContinousCount | core/interval_array.h:243-252 | The greatest k such that k blocks from the given one on are covered |
| IntervalArrays.IntervalArray.GetCountInInterval | core/interval_array.h:228-241 | The cardinality of the set inside the clamped range, without overflow |
| IntervalArrays.IntervalArray.CopyIntervalArray | core/interval_array.h:194-207 | min(size, runs) runs, none larger than one left out, canonical and in start order; the array itself is as before |
| IntervalArrays.IntervalArray.Verify | core/interval_array.h:270-282 | True if and only if the array is canonical |
| Rings.RoundKeepsWindow | protocol/common/buffer_queue.cpp:55-80 | A write round takes the window over k writes to the window over k+1 |
| Rings.RunIsWindow | protocol/common/buffer_queue.cpp:43-80 | After any sequence of rounds on N slots, indices, flag and slots are those of the last N writes |
| Rings.SlidingWindow | protocol/common/buffer_queue.cpp:55-99 | After k rounds an id is found if and only if max(0,k-N) <= id < k, in slot id mod N, with the id and the bytes of that write |
| Rings.OrdinalIds | protocol/common/buffer_queue.cpp:70-99 | If the announced ids are the write ordinals, the slot found for an id carries that id |
| Rings.DequeueIndex | protocol/common/buffer_queue.cpp:94-98 | The two-part index computation gives the slot of the id: the id less as many turns of N as fit |
| Modular.ResidueIsRemainder | protocol/common/buffer_queue.cpp:76-79 | The slot of an id, what is left after as many turns of N as fit, is id mod N |
| Rings.SlotTurn | protocol/common/buffer_queue.cpp:55-80 | Two ids at most one turn apart share a slot exactly when they are one full turn apart |
| Rings.NextIsRemainder | protocol/common/buffer_queue.cpp:63-79 | Advancing an index with the remainder wraps it to the front exactly at the end of the ring |
| Rings.WindowMidRound | protocol/common/buffer_queue.cpp:55-68 | Between the two halves of a round every id below k in the window finds its own intact slot; once the ring has wrapped, id k already finds the half-written one |
| Rings.AdvertisedWindow | protocol/common/buffer_queue.cpp:101-108 | Between rounds the advertised interval is [max(0,k-N), k) after k writes, so (0, 0) before the first |
| Rings.AdvertisedMidRound | protocol/common/buffer_queue.cpp:55-108 | In the middle of a round on a full ring it is one ahead |
| Rings.RoundBytes | protocol/sp/sp_cs_connector.cpp:273-275 | A write covers the front of its slot, leaves the bytes behind as they were, and touches no other slot |
| BufferQueues.BufferQueue.constructor | protocol/common/buffer_queue.cpp:32-53 | A queue with N separate empty slots of 16384 bytes |
| BufferQueues.BufferQueue.QueueBuffer | protocol/common/buffer_queue.cpp:55-68 | Hands out the next slot and, once full, gives up the oldest id: refines the value-level step |
| BufferQueues.BufferQueue.UpdateBufferAttr | protocol/common/buffer_queue.cpp:70-80 | Sets id and flag of the slot in flight and advances: refines the value-level step |
| BufferQueues.BufferQueue.DequeueBuffer | protocol/common/buffer_queue.cpp:82-99 | Returns the slot that the value-level lookup names, or null |
| BufferQueues.BufferQueue.GetBufferInterval | protocol/common/buffer_queue.cpp:101-108 | The advertised interval, which is exactly the set of ids that can be found |
| BufferQueues.BufferQueue.CopyInto | protocol/sp/sp_cs_connector.cpp:273-275 | The writer overwrites the front of the slot in flight; the bytes behind are as before |
| SourceManagers.SourceManager.CreateSource | protocol/sp/sp_source_manager.cpp:85-107 | A new channel gets a reserved queue of 1024 slots; no existing queue changes |
| SourceManagers.SourceManager.QueueBlock | protocol/sp/sp_source_manager.cpp:109-121 | Starts a round in one channel only, or reports an unknown channel |
| SourceManagers.SourceManager.SetBlockAvailable | protocol/sp/sp_source_manager.cpp:144-154 | Finishes a round in one channel only, or reports an unknown channel |
| SourceManagers.SourceManager.StoreBytes | protocol/sp/sp_cs_connector.cpp:271-275 | The copy of the block data changes only the slot in flight of that channel |
| SourceManagers.SourceManager.DequeueBlock | protocol/sp/sp_source_manager.cpp:123-142 | The bytes of the slot that answers to the id, or not found |
| SourceManagers.SourceManager.GetBlock | protocol/sp/sp_cs_connector.cpp:249-305 | A whole write round is one Round on that channel and leaves every other channel alone |
| Serving.StoreKeeps | protocol/sp/sp_cs_connector.cpp:249-305 | A write round keeps a channel a window over its writes and only adds a write |
| Serving.PushListIsTakenUp | protocol/sp/sp_np_connector.cpp:196-211 | A push list is taken up as it was sent, sorted, if the media type was sent before or can be sent now; the media type is packed exactly if it was not before and the channel is known, with that channel's header; nothing else changes |
| Serving.WriteIsStored | protocol/sp/sp_cs_connector.cpp:249-305 | A write round adds one write under the next ordinal to one channel, and its block is found at once |
| Serving.OtherStepsDo | protocol/sp/sp_source_manager.cpp:85-107 | What creating a channel, setting its header and connecting do, and that they change nothing else |
| Serving.PackIsAnswer | protocol/sp/sp_np_connector.cpp:138-180 | Packing takes one block off the list and appends its answer, and changes nothing else |
| Serving.BeginKeeps | protocol/sp/sp_np_connector.cpp:196-211 | Starting a push list keeps the order of the connection and the media type in front |
| Serving.PackAnswers | protocol/sp/sp_np_connector.cpp:138-180 | The next block is taken off the push list and a response with the bytes of its slot is packed if and only if the block is among the last N writes |
| Serving.PackKeeps | protocol/sp/sp_np_connector.cpp:138-180 | That answer is all that is appended, is faithful, and keeps the order of the connection |
| Serving.StepKeepsInv | protocol/sp/sp_np_connector.cpp:138-211 | Every step of every thread keeps the invariant of all channels and connections |
| Serving.RunKeepsInv | protocol/sp/sp_np_connector.cpp:138-211 | So does every run |
| Serving.AlwaysReady | protocol/sp/sp_cs_connector.cpp:249-305 | In every state that a run can reach the next slot of every ring can take a block, so a write to a registered channel and the packing of a pending block are always possible |
| Serving.AlwaysPossible | protocol/sp/sp_np_connector.cpp:182-211 | A push list on a connection that has served the one before, new channels, headers and connections are always possible |
| Serving.ServingIsSafe | protocol/sp/sp_np_connector.cpp:84-211 | In every interleaving: the media type is packed first, each response carries the bytes written for its id, and ids within one push list do not decrease |
| Serving.ListIsServed | protocol/sp/sp_np_connector.cpp:182-194 | Whatever other threads do meanwhile, each turn takes one block off the push list, once, and packs a response exactly if the block is in the window at that moment |
| Serving.AnswersRespond | protocol/sp/sp_np_connector.cpp:182-194 | What is packed are responses, in the order of the turns, for exactly the turns whose block is in the window |
| Serving.TurnsFollowList | protocol/sp/sp_np_connector.cpp:182-194 | The turns take the blocks in the order of the list |
| Serving.PushListIsServed | protocol/sp/sp_np_connector.cpp:182-211 | A push list followed by as many turns as it has entries: each requested id has had one turn per occurrence, in ascending order, answered exactly if its block was in the window then, after the media type if that was due |
| RecvGeometry.FilledIff | core/buffer.cpp:89-133 | A request is filled only if it can be held, and is filled if it can be held and the bytes keep coming: up to 262144 bytes when bytes are unread, only up to the space behind the old end when none are |
| RecvGeometry.FilledWhileDelivering | core/buffer.cpp:89-133 | While the peer delivers, a request for bytes that exist is filled if and only if it can be held |
| RecvGeometry.FilledPositions | core/buffer.cpp:100-118 | After a request that needs a read the bytes stay where they are if the whole request fits behind their end in the enlarged buffer, else they are at the front, and so are those read into an empty buffer |
| RecvGeometry.FilledAlready | core/buffer.cpp:94-96 | A request that the unread bytes meet changes nothing |
| RecvGeometry.DrainIs | core/buffer.cpp:120-130 | For every plan of reads: the first reads deliver, each of them needed, all they can bring; then the request is met or the next read fails and is the last |
| RecvGeometry.DrainReads | core/buffer.cpp:120-130 | While the peer delivers, as many reads as needed bring all they can |
| RecvGeometry.FilledStand | core/buffer.cpp:89-133 | While the peer delivers, a filled request leaves an exactly determined number of bytes unread at an exactly determined place |
| RecvGeometry.RoomForRequest | core/buffer.cpp:89-133 | If the rest of the stream fits behind the unread bytes, every request for bytes that exist is filled, and it still fits afterwards |
| RecvBuffers.Socket.Read | core/socket.cpp:59-82 | Delivers the next bytes of the stream into the given place, at most the size asked for, or fails; a zero-length read fails |
| RecvBuffers.RecvBuffer.constructor | core/buffer.cpp:38-42 | An empty buffer of 131072 bytes |
| RecvBuffers.RecvBuffer.SetBuffer | core/buffer.cpp:54-76 | Grows up to 262144 bytes, never shrinks, and keeps the unread bytes and positions |
| RecvBuffers.RecvBuffer.ReadNBytes | core/buffer.cpp:80-85 | Consumes exactly the next bytes; consumed followed by unread stays what was received |
| RecvBuffers.RecvBuffer.Skip | core/buffer.cpp:87-87 | The same without handing the bytes out |
| RecvBuffers.RecvBuffer.Compact | core/buffer.cpp:112-118 | Moving the unread bytes to the front changes none of them |
| RecvBuffers.RecvBuffer.MakeRoom | core/buffer.cpp:102-118 | Enlarges, then resets or compacts; the unread bytes stay, and the space that may be read into is the one measured before a reset |
| RecvBuffers.RecvBuffer.ReadUntil | core/buffer.cpp:120-130 | Reads until the request is met, the space is used up or a read fails: the position, the reads used and the bytes gained are exactly determined, and no zero-length read happens if the request fits |
| RecvBuffers.RecvBuffer.FillBuffer | core/buffer.cpp:89-133 | Conserves the stream; sizes, positions and reads used are exactly determined; succeeds only if the request can be held, and does if the peer keeps delivering; a request that can be held causes no zero-length read |
| Framing.FirstFrameOfEncoding | core/p2p_protocol.h:38-40 | The first frame of an encoded frame followed by anything is that frame, and the rest is what follows |
| Framing.Receiver.Fill | protocol/sp/sp_np_connector.cpp:219-241 | Never changes the pending bytes (unread plus under way); succeeds only if the request can be held, and does if the peer keeps delivering |
| Framing.Receiver.Take | protocol/sp/sp_np_connector.cpp:236-242 | Taking n bytes removes the first n pending bytes |
| Framing.Receiver.Loop | protocol/sp/sp_np_connector.cpp:215-257 | One turn idles, dispatches or breaks exactly as its fills and the announced size decide; it dispatches the first frame of the pending bytes, whatever the reads looked like; a failed size read loses nothing |
| Framing.Receiver.ThreadLoop | core/thread.cpp:86-119 | Over any number of turns and any cutting of the stream the dispatched messages are the first ones sent, in order, and the rest is pending; turns that do not dispatch are idle unless the stream broke; if all fills succeed, all messages are dispatched |
| Turning.DispatchedIff | core/thread.cpp:86-119 | The first n turns dispatch n messages if and only if each of them dispatches |
| Turning.FurtherTurns | core/thread.cpp:86-119 | Once everything is dispatched, further turns are idle and break nothing |
| Framing.TurnDispatches | protocol/sp/sp_np_connector.cpp:215-257 | A turn dispatches if and only if both its fills succeed |
| Framing.FramesDispatchedIff | protocol/sp/sp_np_connector.cpp:215-257 | The first n turns dispatch the first n messages if and only if the fills for them succeed |
| Framing.TurnBreaksIff | protocol/sp/sp_np_connector.cpp:215-257 | While the peer delivers, a turn idles if and only if nothing is unread and fewer than four bytes fit behind the end; it breaks if and only if not all of the message came with the size field and the rest is longer than any buffer or, with nothing of it received yet, than the space behind the size field |
| Framing.StraddlingSizeField | core/buffer.cpp:110-117 | Part of a size field at the very end of the buffer is moved to the front, so that a message of the buffer's size still gets through |
| Framing.IdleOnlyOnce | protocol/sp/sp_np_connector.cpp:219-234 | While the peer delivers, an idle turn is never followed by another |
| Framing.RoomForAll | protocol/sp/sp_np_connector.cpp:215-257 | If the whole stream fits behind what is there and the peer delivers it, every message gets through |
| Framing.CutBehindSizeField | protocol/sp/sp_np_connector.cpp:236-242 | A stream that breaks although all of it arrives: the first read of 131072 bytes ends just behind the size field of the second message |
| Bytes.FromLeOfLe | core/streamer.h:41-53 | A little-endian field reads back as the value written |
| Bytes.LeOfFromLe | core/streamer.h:41-53 | The bytes of a field are determined by the value read from it |
| WireLayout.LeBytes | core/streamer.h:47-53 | Fields of one, two and four bytes are written least significant byte first |
| Streamers.Streamer.constructor | core/streamer.cpp:29-39 | A cursor at the front of a buffer |
| Streamers.Streamer.ReadLe | core/streamer.cpp:41-63 | Consumes exactly the bytes of the value it returns |
| Streamers.Streamer.ReadNBytes | core/streamer.cpp:65-70 | Consumes exactly the bytes it returns |
| Streamers.Streamer.WriteLe | core/streamer.cpp:77-83 | Appends the bytes of the value at the cursor |
| Streamers.Streamer.WriteNBytes | core/streamer.cpp:85-88 | Appends the bytes at the cursor |
| Messages.ReserveIsExact | core/message.cpp:52-765 | For each of the eleven messages the reserved size is exactly the size of its fields |
| Messages.BodyDeterminesMessage | core/message.cpp:79-765 | Two messages of one type with the same bytes on the wire are the same message |
| Codecs.PackRegister | core/message.cpp:93-98 | Writes exactly the fields of the message and fills the reserve |
| Codecs.PackSpList | core/message.cpp:145-151 | Writes exactly the fields of the message and fills the reserve |
| Codecs.PackResList | core/message.cpp:236-247 | Writes exactly the fields of the message and fills the reserve |
| Codecs.PackStatus | core/message.cpp:274-283 | Writes exactly the fields of the message and fills the reserve |
| Codecs.PackLogin | core/message.cpp:432-445 | Writes exactly the fields of the message and fills the reserve |
| Codecs.PackShort | core/message.cpp:117-120 | The same for the five messages of one or two fixed fields |
| Codecs.PackSubmsg | core/message.cpp:93-759 | The tag, then the fields, for every message whose writer stays inside the reserve, with the peer list as it is written |
| Codecs.ImageSize | core/message.cpp:56-69 | What the writers produce fits the reserve, and fills it with the wire form unless a peer list has more peers than super peers |
| Codecs.Pack | core/message.cpp:56-69 | The packed buffer has the reserved size and begins with size, tag and fields; for all messages but unequal peer lists it is exactly the wire form |
| Codecs.PackedIsFrame | core/message.cpp:56-69 | A packed message is one frame of the stream, whose size field is its own length |
| Codecs.ParseRegister | core/message.cpp:79-85 | What was consumed is the wire form of what is returned |
| Codecs.ParseSpList | core/message.cpp:130-143 | What was consumed is the wire form of what is returned |
| Codecs.ParseResList | core/message.cpp:215-226 | What was consumed is the wire form of what is returned |
| Codecs.ParseStatus | core/message.cpp:253-262 | What was consumed is the wire form of what is returned |
| Codecs.ParseLogin | core/message.cpp:414-430 | What was consumed is the wire form of what is returned |
| Codecs.ParsePeers | core/message.cpp:685-709 | What was consumed is the wire form of what is returned |
| Codecs.ParseShort | core/message.cpp:105-109 | The same for the five messages of one or two fixed fields |
| Codecs.Parse | core/message.cpp:79-752 | The same for every message type |
| Codecs.BodyIsEnough | core/message.cpp:79-752 | The reader of a message type never runs past the end of a packed message of that type |
| Codecs.ParseBody | protocol/tracker/tracker_np_connector.cpp:507-549 | The reader for the body of a packed message returns the message and consumes the whole body |
| Codecs.HandlePacket | protocol/tracker/tracker_np_connector.cpp:507-549 | A handler that gets a packed message reads back the message that was sent, and its cursor ends at the reserve |
| Codecs.PackPeers | core/message.cpp:711-725 | The peer list as written, for every pair of lists: its second loop runs to the length of the first list, past the last peer if that is longer |
| Codecs.PeersWrittenSize | core/message.cpp:711-739 | For every pair of lists the writer produces the reserve and 20 bytes more for each super peer that exceeds the peers, or less for each that is missing |
| Codecs.PeersExactIff | core/message.cpp:711-739 | It fills its reserve, and has the layout its reader expects, if and only if the lists are equally long; it outgrows the reserve if and only if there are more super peers |
| WireLayout.PeersLayout | core/message.cpp:711-725 | For every pair of lists, by position: the number of super peers and these, the number of peers, as many peers as there are super peers, the peer's own address |
| WireLayout.PackedPeersLayout | core/message.cpp:711-725 | The same in the packed buffer |
| WireLayout.ImageLayout | core/message.cpp:56-69 | By position: the length, the type and the fields of every packed message |
| WireLayout.TypeBytes | core/p2p_protocol.h:64-119 | The type byte of each message |
| WireLayout.RegisterLayout | core/message.cpp:93-98 | Where each field stands |
| WireLayout.StatusLayout | core/message.cpp:274-283 | Where each field stands |
| WireLayout.ResListLayout | core/message.cpp:236-247 | Where each field and each resource stands |
| WireLayout.SpListLayout | core/message.cpp:145-151 | Where the count and each address stand |
| WireLayout.LoginLayout | core/message.cpp:432-445 | Where each field and each address stands |
| WireLayout.ShortLayouts | core/message.cpp:117-120 | Where the fields of the five short messages stand |
| Codecs.NoPeersOutgrowReserve | core/message.cpp:711-739 | One super peer and no peer: 20 bytes more than reserved |
| Delivery.StreamIsFrames | core/message.cpp:56-69 | Packed messages one after the other are a stream of whole frames |
| Delivery.Receive | protocol/sp/sp_np_connector.cpp:215-257 | From writer to handler: the messages parsed are the first ones packed, unchanged and in order, for every cutting of the stream, and all of them if all fills succeed |
| Delivery.ShortStreamArrives | protocol/sp/sp_np_connector.cpp:215-257 | On a new connection, messages of together up to 131072 bytes get through every cutting of the stream |
| NpManagers.NPNode.Assign | core/struct_define.h:158-195 | Node assignment copies the interval array into fresh memory |
| NpManagers.NpCoordinator.GetNode | protocol/tracker/tracker_np_manager.cpp:118-126 | Copies a stored node out; stored nodes stay as they are and share nothing with the copy |
| NpManagers.NpCoordinator.InsertNode | protocol/tracker/tracker_np_manager.cpp:71-104 | Stores a copy under the uuid, over the old node or as a new one; no other node changes |
| NpManagers.NpCoordinator.DeleteNode | protocol/tracker/tracker_np_manager.cpp:106-116 | Removes exactly the node of the uuid |
| GroupDraws.MarkTried | protocol/tracker/tracker_np_manager.cpp:166-169 | Marking a group lowers the number of groups not yet tried exactly if it was not marked |
| GroupDraws.TagsTell | protocol/tracker/tracker_np_manager.cpp:161-175 | At every draw of every round a group's tag is gone if and only if the group was drawn before |
| GroupDraws.LastDrawDecides | protocol/tracker/tracker_np_manager.cpp:161-175 | The last draw of a round that is not zero decides: its group, or -1 if that was drawn before |
| GroupDraws.NoGroupIff | protocol/tracker/tracker_np_manager.cpp:161-175 | A round settles on no group if and only if its last non-zero draw names a group drawn earlier, in this round or before |
| GroupDraws.RoundMarks | protocol/tracker/tracker_np_manager.cpp:160-175 | A round that settles on a group marks a new one, unless it drew only zeros |
| GroupDraws.SomeRoundWithoutGroup | protocol/tracker/tracker_np_manager.cpp:160-179 | Without rounds of zeros one of the first groups+1 rounds settles on no group |
| GroupDraws.NoGroupTwice | protocol/tracker/tracker_np_manager.cpp:160-179 | Two rounds with a non-zero draw never settle on the same group |
| GroupSearch.ScansOffer | protocol/tracker/tracker_np_manager.cpp:197-206 | Only matching peers are offered, and all of them once group 0 was visited |
| GroupSearch.ScansEmptyIff | protocol/tracker/tracker_np_manager.cpp:181-207 | Nothing is offered if and only if nobody from the start of a visited group on matches |
| PeerSelection.PickGroup | protocol/tracker/tracker_np_manager.cpp:161-175 | One draw for each group: the position and the tags are those that the draws determine |
| PeerSelection.ScanGroup | protocol/tracker/tracker_np_manager.cpp:187-207 | Appends the matching nodes in key order until the result is full or the map ends |
| PeerSelection.TryGroup | protocol/tracker/tracker_np_manager.cpp:181-207 | Seeking to a group never passes the end of the map |
| PeerSelection.TryRound | protocol/tracker/tracker_np_manager.cpp:160-215 | A round is the last one if and only if it settles on no group or there are enough peers; else it adds what its group offers |
| PeerSelection.GetNpAddress | protocol/tracker/tracker_np_manager.cpp:138-218 | Ends whenever the search can end, with the one answer that the map and the draws determine: what the groups offer that the rounds settle on, in that order, cut to the number asked for |
| PeerSelection.EndsIff | protocol/tracker/tracker_np_manager.cpp:159-215 | The search ends if and only if none is asked for, somebody matches, or some round settles on no group; there is one answer at most |
| PeerSelection.EndsInTime | protocol/tracker/tracker_np_manager.cpp:159-215 | Without rounds of zeros, in particular without zero draws, it ends after at most as many rounds as there are groups, and one |
| PeerSelection.FewNodesAnswer | protocol/tracker/tracker_np_manager.cpp:138-218 | Below thirty nodes and without zero draws the answer is exactly the first matches in key order |
| PeerSelection.EmptyAnswerIff | protocol/tracker/tracker_np_manager.cpp:159-215 | The exact condition for an empty answer, whoever matches: none was asked for, or nobody matches from any group on that is settled on before the first round that settles on none |
| PeerSelection.RepeatedDrawFindsNobody | protocol/tracker/tracker_np_manager.cpp:161-179 | If the last draw of the first round repeats a group of that round, the answer is empty |
| PeerSelection.ThirtyMatchesNoAnswer | protocol/tracker/tracker_np_manager.cpp:161-179 | For every map of thirty nodes that all match, equal draws give an empty answer |
| FoundLists.CutNamesNobodyTwice | protocol/tracker/tracker_np_manager.cpp:187-213 | Lists put one behind the other and cut at n name nobody twice if any two that are not empty share only what the cut takes off |
| PeerRepeats.FoundTwice | protocol/tracker/tracker_np_manager.cpp:187-207 | If two rounds offer peers, the result names a peer twice unless it is full before the later round comes to the group of the earlier one |
| PeerRepeats.NobodyTwiceIff | protocol/tracker/tracker_np_manager.cpp:159-215 | If all matching peers differ, a search finds nobody twice if and only if no two of its rounds offer peers, or the later one fills the result before it comes to the group of the earlier one |
| PeerRepeats.AnswerNamesNobodyTwiceIff | protocol/tracker/tracker_np_manager.cpp:138-218 | The same for the answer, as a condition on map and draws |
| PeerRepeats.EarlierGroupRepeats | protocol/tracker/tracker_np_manager.cpp:187-207 | The group limit has no effect: a search that settles on a later group and then on the first finds the later peers again, and the first of them twice if there is room |
| PeerRepeats.LatePeersTwice | protocol/tracker/tracker_np_manager.cpp:187-207 | Draws under which the answer names a peer twice, for every map with a match behind the first group and room left |
| PeerExamples.ThirtyPeersNoAnswer | protocol/tracker/tracker_np_manager.cpp:161-179 | Thirty recorded peers of one channel that all have the block, and an empty answer |
| PeerExamples.LastPeerNamedTwice | protocol/tracker/tracker_np_manager.cpp:187-207 | Thirty-one recorded peers of which only the last has the block, and an answer that names it twice |
| NpTrackers.NpTracker.Store | protocol/tracker/tracker_np_connector.cpp:281-281 | Stores a node standing for a record; all other records stay |
| NpTrackers.NpTracker.GetLogin | protocol/tracker/tracker_np_connector.cpp:110-184 | Starts the record of a peer afresh, or drops a login without addresses |
| NpTrackers.NpTracker.AddIntervals | protocol/tracker/tracker_np_connector.cpp:239-243 | Inserts the reported intervals in order into the local copy |
| NpTrackers.NpTracker.TakeReport | protocol/tracker/tracker_np_connector.cpp:206-281 | Appends the reported intervals to those reported before, takes over what the peer says of itself, and leaves address, channel and all other records alone; does nothing for an unknown peer or without intervals |
| NpTrackers.NpTracker.GetReport | protocol/tracker/tracker_np_connector.cpp:206-284 | The same, and afterwards the array of the stored node answers exactly for the blocks of the valid intervals reported before or now, given room |
| NpTrackers.NpTracker.FindPeers | protocol/tracker/tracker_np_connector.cpp:377-378 | The answer that the records in key order and the draws determine |
| NpTrackers.NpTracker.SendPeers | protocol/tracker/tracker_np_connector.cpp:362-440 | Sends exactly that answer for the block, if there is a super peer, a streaming server and a record of the asking peer, which then changes channel |
| NpTrackers.NpTracker.GetNeedPeers | protocol/tracker/tracker_np_connector.cpp:286-314 | The same for the asking peer's own channel; no record changes |
| NpTrackers.NpTracker.GetLogout | protocol/tracker/tracker_np_connector.cpp:316-335 | Removes exactly the record of the peer |
| NpTrackers.StoredIsReported | protocol/tracker/tracker_np_connector.cpp:239-243 | At every moment since the login the stored node answers exactly for the blocks of the valid reported intervals, if and only if each of these found room at its turn, which holds for any 65535 intervals, wrapping ones included |
| NpTrackers.StoredIsUnion | protocol/tracker/tracker_np_connector.cpp:239-243 | If no interval wraps and each is accepted, the stored array is also canonical and denotes exactly their union |
| NpTrackers.AnswerFromRecords | protocol/tracker/tracker_np_connector.cpp:362-412 | Whatever the draws: at most twenty peers, each another recorded peer of the channel whose stored set has the block |
| NpTrackers.OfferedHasReported | protocol/tracker/tracker_np_connector.cpp:362-412 | A peer offered for a block has reported that block in a valid interval, whatever else it reported, and even if its array overflowed |
| NpTrackers.MatchesIff | protocol/tracker/tracker_np_manager.cpp:197-200 | A peer matches a query if and only if it is another peer of the channel and has reported the block in a valid interval, given room |

## Left out

- IntervalArrays.IntervalArray.SafeInsert: the source copies between overlapping regions with `memcpy`; the contract is the shift that is meant.
- IntervalArrays.IntervalArray.DelInterval: the debug assertion that the size is not zero is taken as compiled out; a zero size changes nothing.
- IntervalArrays.IntervalArray.DeleteArray: calls on the array itself, and `AndOperator` into one of its operands, are excluded by precondition.
- RunSorting.Sort: stands for the library sort, whose own algorithm is not modelled; only its contract is used.
- `GetMaxBlockID`, `GetMinBlockID`, `PopFront`, `Print`: one-line accessors and output.
- Rings.SlidingWindow: block ids are unbounded integers; the wrap of the 32-bit `min_block_id` after 2^31 writes is not modelled.
- Rings.OrdinalIds: assumes, as the protocol does, that the capture server numbers its blocks 0, 1, 2, and so on.
- RecvBuffers.RecvBuffer.ReadNBytes: requires that many unread bytes, and so does `Skip`; the source moves its pointer without a check.
- SourceManagers.SourceManager.StoreBytes: requires at most 16384 bytes of data, and so does `CopyInto`; the source copies any number.
- Streamers.Streamer.WriteLe: requires room in the buffer, and so does `WriteNBytes`; the source checks only the writes of more than one byte through its templates.
- Codecs.PackSubmsg: requires, like `Pack`, no more super peers than peers.
- SourceManagers.SourceManager.GetBlock: requires a registered channel and at most 16384 bytes of data; the source checks neither.
- `get_source_list`: lists `get_buffer_interval` of every channel; nothing beyond `GetBufferInterval` and `AdvertisedWindow`.
- Serving.ServingIsSafe: on values, as threads interleave; a step ends where the original thread may yield, which is at a socket write. Sockets that fail while writing do not change what was packed and are not modelled.
- Serving.BeginKeeps: a header that was never set counts as empty; in the source it is uninitialised.
- Framing.Receiver.ThreadLoop: the idle counter that closes a connection after 150 empty turns is not modelled; a closed connection is a run that ends.
- Framing.Receiver.Loop: a size field below 5 ends in `Broken`. In the source a size below 4 fails an assertion; a size of 4 loses nothing, as the source takes the next byte for the type without consuming it and goes on, reading stale memory if no byte has come yet.
- Codecs.PackPeers: what lies behind the peer array is a parameter, and so is the room behind the reserve.
- Codecs.Pack: with more super peers than peers the original writes behind its buffer; `PackPeers` and `PeersExactIff` cover that case, the buffer itself does not.
- Codecs.Parse: requires the reads to stay in the buffer, as the source asserts. Floats and address structures are byte strings of their size on a little-endian 64-bit machine.
- Codecs.WriteItems: memory release and the copy of structures to bytes are not modelled; the items are the bytes.
- Messages without an inverse as written (`Sp2SpPushList`, `Sp2SpMediatype`, `Sp2SpResponse`, `Np2TsReport`, `Sp2TsLogout`) and those made of a lone uuid (`Sp2TsSpList`, `Np2TsReqInterval`, `Np2TsLogout`) or two scalars (`Ts2NpMsg`).
- PeerSelection.GetNpAddress: the result is a growing sequence, not an array filled at an index. Draws are a parameter, and it requires the exact condition under which the scan ends (`EndsIff`); otherwise the original never returns. The unused first draw is left out.
- NpManagers.NpCoordinator.InsertNode: the order of uuids is that of numbers; allocation failures and the idle timer are not modelled.
- NpTrackers.NpTracker.GetReport: starts from a report already read, because the source reads its intervals into memory it never allocated. Of a node only uuid, channel, peer description and intervals are kept.
- NpTrackers.NpTracker.SendPeers: the numbers of super peers found elsewhere are parameters; packing and sending the answer is not part of it.
- NpTrackers.NpTracker.GetLogin: the choice of the peer's address among its local ones is a parameter, and so is the uuid, which need not be fresh.
- Sockets, listeners, threads, timers, logging, bitrate, MD5 and the main programs: plumbing and output.
