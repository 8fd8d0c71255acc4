# yasl, verified models

Dafny models of the state-heavy parts of the yasl library, with proofs of what they are for. Each
module follows one source file or one protocol. Where the source works in place or updates an
object, the model is a method or a class; a protocol is a step system, and its theorems quantify
over every run and every interleaving.

| files | what they model |
|---|---|
| `Numbers`, `Words`, `Wrappers` | rounding up, powers of two, truncation and shifts, `uint128_t` as 128 bits; results that may be errors |
| `Dpf`, `DpfContext` | distributed point functions: key generation, evaluation at a point and over the full domain, with early termination |
| `PuncturedOt` | punctured random OT: the sender's seed tree, the receiver's reconstruction of all leaves but one |
| `Transpose`, `SseTranspose` | the bit-matrix transposes: naive, Eklundh's, SSE, 128 x 128 and 128 x 1024 |
| `OtRows`, `Iknp`, `Kkrt`, `KkrtStream`, `KkrtRuns` | OT extension: IKNP, KKRT in one shot, KKRT streaming with corrections in batches |
| `Channel`, `ChannelRuns` | one link: acks, throttle window, fins, shutdown |
| `Chunking`, `ChunkRuns` | messages cut into chunks and put together by racing handler threads |
| `Ranks`, `Barrier`, `Broadcast` | ring ranks, the dissemination barrier, the binomial-tree broadcast |
| `P2p`, `P2pRuns` | message keys and counters of a context; order per pair of parties |
| `CsvReader` | the CSV reader's sparse row index |
| `ParallelReduce` | chunked loops and reductions over a thread pool |

`dafny verify dfyconfig.toml` checks everything.

## How to read the models

- AES, Blake3, the random oracles and the pseudo random generators are parameters: functions of
  which nothing is assumed. A generator is the fixed stream of blocks of its seed.
- The network is a bag of messages: everything handed over is delivered exactly once, in any order.
- In full-domain keys the position of alpha is cut to 32 bits, as in the source; `Dpf.FullDomain` is
  exact about it. The guards on the number of input bits keep the cut from mattering.
- Base OTs are a precondition of the theorems about whole runs: the block of the choice bit.
- A run is a sequence of atomic steps. What the source does under a lock is one step; what it does
  between two locks is not. In particular a sender has handed its message over before it counts it,
  and a reader has taken a message before it acks it.

## Where the code and its description differ

- *Shutdown progress.* The four waits of `WaitLinkTaskFinish` can block with nothing in flight and
  both fins sent: when a `Recv` at the peer took a message before its side stopped receiving and has
  not sent the ack yet. `ChannelRuns.BlockedExactly` says that this is the only way,
  `ChannelRuns.RecvInProgressBlocks` gives a run, and `ChannelRuns.NeverBlocked` is the guarantee for
  callers with no `Recv` in progress. The wait ends as soon as the ack is sent (`ShutdownCompletes`).
- *Throttle.* The window bounds the unacked messages by w for one sender thread only: k threads may
  have w - 1 + k, since messages are handed over before they are counted
  (`ChannelRuns.ThrottleBoundReached`, `ChannelRuns.WindowIsBound`).
- *Barrier.* `SendAsync` waits for the throttle, and an ack comes only from a `Recv` at the peer. With a
  window of 1 each party of a barrier waits for the next to receive before it receives itself, and
  nobody ever gets past the first message (`Barrier.WindowOne`). `Barrier.StuckExactly` says for every
  choice of windows whether the barrier can get stuck: exactly if parties with window 1 form a closed
  ring of some round. The broadcast never does (`Broadcast.NeverStuck`).
- *Empty payloads.* `SendChunked` of an empty payload sends nothing at all. It is only called for
  payloads larger than one request (`ChunkRuns.DeliveredExactlyOnce` covers both).
- *Row index.* `Seek` to the very end of a file works as long as the number of rows is unknown and
  throws afterwards. A file with a header and no rows cannot be opened with row counting.

## Model
| member | source | states |
|---|---|---|
| Dpf.LevelStep | yasl/mpctools/dpf/dpf.cc:96-134 | one level of the walk: on alpha's path the two control bits stay different; on leaving it the parties get the same node; equal nodes stay equal |
| Dpf.LevelInvariant | yasl/mpctools/dpf/dpf.cc:96-134 | the level invariant: after i levels the control bits differ if x agrees with alpha on its low i bits, else both parties hold the same seed and bit |
| Dpf.PathCorrectedUnique | yasl/mpctools/dpf/dpf.cc:112-133 | the correction words of a key are the only ones that correct alpha's path |
| Dpf.MaskIsAllOnes | yasl/mpctools/dpf/dpf.h:152-158 | the output mask is 2^ss - 1, at 64 bits too |
| Dpf.TruncateBound | yasl/mpctools/dpf/dpf.h:160-163 | truncating is reduction modulo 2^ss |
| Dpf.TruncateReverse | yasl/mpctools/dpf/dpf.h:160-168 | truncation survives the wrap-around at 128 bits, and ReverseSs is negation modulo 2^ss |
| Dpf.LastCwSettles | yasl/mpctools/dpf/dpf.cc:150-176 | the last correction word makes the two parties' last outputs differ by the target, whichever control bit the second party holds; truncating the second output first changes nothing |
| Dpf.SettlesUnique | yasl/mpctools/dpf/dpf.cc:150-176 | no other last correction word does |
| Dpf.OutputsSum | yasl/mpctools/dpf/dpf.cc:223-229 | shares sum to the target where the control bits differ and to zero where the nodes are equal |
| Dpf.LeafShares | yasl/mpctools/dpf/dpf.cc:262-272 | the i-th outputs of a leaf sum to beta on alpha's leaf and position and to zero on every other leaf and position |
| Dpf.PointFunction | yasl/mpctools/dpf/dpf.cc:189-230 | for every alpha, beta, x and master seeds: the two shares at x sum, modulo 2^ss, to beta if x and alpha agree modulo 2^n and to 0 otherwise |
| Dpf.PointFunctionModulo | yasl/mpctools/dpf/dpf.cc:189-230 | the same in residues: beta % 2^ss where x and alpha are congruent modulo 2^n, 0 elsewhere |
| Dpf.PointFunctionOnDomain | yasl/mpctools/dpf/dpf.cc:189-230 | for alpha, x below 2^n: beta exactly at x = alpha |
| Dpf.FullDomain | yasl/mpctools/dpf/dpf.cc:232-295 | for every termination level L <= n and every x below 2^n: the two arrays' cells at x sum to beta exactly where x agrees with alpha on the low L bits and its high bits are the 32-bit position of alpha |
| Dpf.FullDomainOnDomain | yasl/mpctools/dpf/dpf.cc:232-295 | for alpha below 2^n with at most 32 levels cut, that is the point function at alpha |
| Dpf.FullDomainAgreesWithEval | yasl/mpctools/dpf/dpf.cc:145-185 | with no level cut, each party's full-domain cell equals Eval of the ordinary key of the same seeds at every x |
| DpfScheme.CwSetters | yasl/mpctools/dpf/dpf.h:51-59 | the three setters of a correction word do not disturb each other's parts of the packed byte |
| DpfScheme.Children | yasl/mpctools/dpf/dpf.cc:253-254 | the positions given to the two recursive calls split the numbers under a node between them |
| DpfScheme.Cell | yasl/mpctools/dpf/dpf.cc:266-267 | the cells a leaf writes are exactly the numbers under it, each under one output |
| DpfScheme.DpfContext.SetInBitNum | yasl/mpctools/dpf/dpf.h:120-123 | more than 64 input bits are refused and change nothing |
| DpfScheme.DpfContext.SetSsBitNum | yasl/mpctools/dpf/dpf.h:126-129 | more than 64 output bits are refused and change nothing |
| DpfScheme.DpfContext.GetTerminateLevel | yasl/mpctools/dpf/dpf.h:177-184 | never more levels than input bits, and all of them without full-domain evaluation |
| DpfScheme.DpfContext.Gen | yasl/mpctools/dpf/dpf.cc:69-187 | fails exactly on its guards; otherwise the two keys are a pair for alpha and beta, in either mode |
| DpfScheme.DpfContext.GenLevels | yasl/mpctools/dpf/dpf.cc:88-134 | the level loop yields words that correct alpha's path, and both parties' nodes at its end |
| DpfScheme.DpfContext.GenLast | yasl/mpctools/dpf/dpf.cc:142-185 | every last correction word settles its output on beta at alpha's position and on zero elsewhere |
| DpfScheme.DpfContext.GenLastAll | yasl/mpctools/dpf/dpf.cc:161-185 | the same for the loop that chains each output from the one before |
| DpfScheme.DpfContext.Eval | yasl/mpctools/dpf/dpf.cc:189-230 | fails exactly on its guards; otherwise the party's share at x, the one the point-function theorem is about |
| DpfScheme.DpfContext.Traverse | yasl/mpctools/dpf/dpf.cc:232-274 | writes every cell whose low bits are its position exactly once, with the share there, and no other cell |
| DpfScheme.DpfContext.WriteLeaf | yasl/mpctools/dpf/dpf.cc:261-273 | the chained outputs of one leaf, each cell written once |
| DpfScheme.DpfContext.EvalAll | yasl/mpctools/dpf/dpf.cc:276-295 | all 2^n cells, each written exactly once with the party's share; refused for ordinary keys and beyond 25 bits |
| DpfScheme.DpfContext.SharedPoint | yasl/mpctools/dpf/dpf.cc:69-230 | a whole run: key generation, both parties' Eval, shares added: beta modulo 2^ss at alpha, 0 at every other point of the domain |
| DpfScheme.DpfContext.SharedDomain | yasl/mpctools/dpf/dpf.cc:69-295 | a whole run over the full domain: the two arrays add up, cell by cell, to the point function |
| PuncturedOt.MissingChild | yasl/mpctools/ot/punctured_rand_ot.cc:121-130 | a level's sum xored with the children of all nodes but one is that node's child |
| PuncturedOt.NextLevelButOne | yasl/mpctools/ot/punctured_rand_ot.cc:122-141 | inserting the sibling into the children of the known nodes gives the next level without the path's node |
| PuncturedOt.PathPosBits | yasl/mpctools/ot/punctured_rand_ot.cc:104-107 | the position tracked level by level is the index's leading bits |
| PuncturedOt.ExpandLevel | yasl/mpctools/ot/punctured_rand_ot.cc:161-173 | one level expanded in one vector: exactly the children in order, and the xor of all left and of all right ones |
| PuncturedOt.Expand | yasl/mpctools/ot/punctured_rand_ot.cc:156-174 | the whole tree and every level's pair of sums |
| PuncturedOt.Send | yasl/mpctools/ot/punctured_rand_ot.cc:148-198 | the leaves, and per level the two sums masked with the base OT blocks in the order the masked choice asks for |
| PuncturedOt.Choose | yasl/mpctools/ot/punctured_rand_ot.cc:82-100 | the index's bits, most significant first, and their masked complements; fails on too few base OTs and outside 2 to 63 choices |
| PuncturedOt.RecvLevel | yasl/mpctools/ot/punctured_rand_ot.cc:121-135 | one level at the receiver: the children of all known seeds, and the received sum with the children on its side xored out |
| PuncturedOt.Recv | yasl/mpctools/ot/punctured_rand_ot.cc:103-146 | the receiver's vector after all levels |
| PuncturedOt.Unmask | yasl/mpctools/ot/punctured_rand_ot.cc:109-119 | with consistent base OTs the unmasked half of a message is the sender's sum of the sibling's side |
| PuncturedOt.ReceivedIsPunctured | yasl/mpctools/ot/punctured_rand_ot.cc:103-142 | the invariant: after i levels the receiver holds all nodes of level i but the one on the path |
| PuncturedOt.PuncturedROT | yasl/mpctools/ot/punctured_rand_ot.cc:78-198 | a whole run, every n from 4 below 2^32 and every index: the receiver ends with the sender's leaves without the one at the index; for a power of two these are n leaves |
| Transpose.NaiveTranspose | yasl/mpctools/ot/utils.h:35-45 | or-ing in one bit at a time gives the transpose |
| Transpose.TransposeEntries | yasl/mpctools/ot/utils.h:35-45 | the transpose is the one matrix whose entry (r, c) is the original's (c, r) |
| Transpose.ExchangeEntry | yasl/mpctools/ot/utils.cc:81-85 | the masked shift-and-xor on two rows moves each column bit from where the exchange of one index bit takes it |
| Transpose.MixStep | yasl/mpctools/ot/utils.cc:70-90 | how one more index bit exchanged changes where an entry comes from |
| Transpose.RoundExchanges | yasl/mpctools/ot/utils.cc:70-90 | for matrices of every size 2^b: after a round one more of the top bits of row and column index is exchanged |
| Transpose.RoundsTranspose | yasl/mpctools/ot/utils.cc:64-91 | for matrices of every size 2^b: after i rounds the top i bits of the two indices are exchanged, and b rounds transpose |
| Transpose.RowsAreRound | yasl/mpctools/ot/utils.cc:78-85 | the masked shifts and xors on the row pairs of a 128 x 128 matrix are such a round |
| Transpose.PairRows | yasl/mpctools/ot/utils.cc:74-79 | the loop's row pairs meet every row of the matrix exactly once |
| Transpose.EklundhRound | yasl/mpctools/ot/utils.cc:70-90 | one in-place round takes the matrix from k + 1 to k low bits not yet exchanged |
| Transpose.EklundhTranspose128 | yasl/mpctools/ot/utils.cc:64-91 | Eklundh's in-place transpose of every matrix is the naive transpose |
| SseTranspose.LoadSubSquare | yasl/mpctools/ot/utils.cc:100-116 | loads the two byte columns of a 16 x 16 square |
| SseTranspose.StoreTwoRows | yasl/mpctools/ot/utils.cc:128-134 | one shift-and-movemask step writes two rows of the square and nothing else |
| SseTranspose.TransposeSubSquare | yasl/mpctools/ot/utils.cc:120-135 | writes the transpose of what was loaded into the target square and leaves every other entry |
| SseTranspose.LoadedTransposed | yasl/mpctools/ot/utils.cc:100-135 | loading a square and storing it transposed puts entry (c, r) at (r, c) |
| SseTranspose.SwapProgress | yasl/mpctools/ot/utils.cc:149-154 | exchanging a pair of squares advances the in-place transpose although one is overwritten before the other is stored |
| SseTranspose.SwapSquares | yasl/mpctools/ot/utils.cc:149-154 | the same of the code, both squares loaded before either is written |
| SseTranspose.SseTranspose128 | yasl/mpctools/ot/utils.cc:137-159 | the SSE transpose of every 128 x 128 matrix is the naive transpose |
| SseTranspose.LoadSubSquarex | yasl/mpctools/ot/utils.cc:192-241 | the load in one of eight column blocks |
| SseTranspose.TransposeSubSquarex | yasl/mpctools/ot/utils.cc:243-291 | the store in one of eight column blocks, leaving the other seven and the other squares |
| SseTranspose.SseTranspose128x1024 | yasl/mpctools/ot/utils.cc:294-311 | each of the eight column blocks becomes its own transpose |
| SseTranspose.EklundhTranspose128x1024 | yasl/mpctools/ot/utils.cc:161-190 | the same by way of a copy of each block |
| SseTranspose.MatrixTranspose128 | yasl/mpctools/ot/utils.cc:340-346 | either algorithm, the same result |
| SseTranspose.MatrixTranspose128x1024 | yasl/mpctools/ot/utils.cc:348-354 | either algorithm, the same result |
| OtRows.TransposedRow | yasl/mpctools/ot/kkrt_ot_extension.cc:213-226 | a row of the transposed columns is that row of the 512 or 128 generator streams |
| OtRows.WordCorrelation | yasl/mpctools/ot/iknp_ot_extension.cc:68-79 | the sender's column stream with the message masked in by its choices is the receiver's first stream with the code masked in |
| OtRows.RowCorrelation | yasl/mpctools/ot/kkrt_ot_extension.cc:228-239 | the same for whole KKRT rows |
| OtRows.NextColumns | yasl/mpctools/ot/kkrt_ot_extension.cc:214-220 | one call of every generator of a column group; each stream advances by one |
| Iknp.IknpOtExtRecv | yasl/mpctools/ot/iknp_ot_extension.cc:94-143 | fails exactly on its four guards; sends one message per batch and outputs the hashed rows of the first streams, a partial last batch included |
| Iknp.RecvBatch | yasl/mpctools/ot/iknp_ot_extension.cc:115-127 | one batch: both streams advance by one, the message holds both streams and the choices |
| Iknp.HashRows | yasl/mpctools/ot/iknp_ot_extension.cc:134-141 | writes exactly the rows of its batch that exist |
| Iknp.IknpOtExtSend | yasl/mpctools/ot/iknp_ot_extension.cc:41-92 | fails exactly on its guards and on a message of the wrong size; each pair is the hash of the sender's row without and with its choice mask |
| Iknp.MaskBatch | yasl/mpctools/ot/iknp_ot_extension.cc:64-79 | (u & s) ^ G(k) column by column, the streams advancing by one |
| Iknp.IknpCorrect | yasl/mpctools/ot/iknp_ot_extension.cc:68-90 | with consistent base OTs the sender's block at the receiver's choice bit is the receiver's block |
| Iknp.IknpOtExt | yasl/mpctools/ot/iknp_ot_extension.cc:41-143 | a whole run, for every number of OTs: the same for every position of the two output arrays |
| Kkrt.KkrtGroupPRF.Eval | yasl/mpctools/ot/kkrt_ot_extension.cc:105-137 | H(q ^ (c(x) & s)) for a row that exists, an error otherwise |
| Kkrt.KkrtGroupPRF.SetQ | yasl/mpctools/ot/kkrt_ot_extension.cc:139-145 | sets the given rows and no other; refused, changing nothing, when they do not fit |
| Kkrt.KkrtGroupPRF.CalcQ | yasl/mpctools/ot/kkrt_ot_extension.cc:147-169 | masks corrections into the given rows and no other; refused, changing nothing, when they do not fit |
| Kkrt.BatchRows | yasl/mpctools/ot/kkrt_ot_extension.cc:211-226 | the valid rows of a batch are rows of the streams, which advance by one |
| Kkrt.KkrtOtExtSend | yasl/mpctools/ot/kkrt_ot_extension.cc:184-246 | fails exactly on its guards and on a message of the wrong size; otherwise every row is the stream row with the received correction masked in |
| Kkrt.KkrtOtExtRecv | yasl/mpctools/ot/kkrt_ot_extension.cc:248-319 | fails exactly on its guards; otherwise the corrections of all rows and the oracle on the first stream's rows |
| Kkrt.PrfAgrees | yasl/mpctools/ot/kkrt_ot_extension.cc:105-119 | on a corrected row the sender's PRF at the input is the oracle on the receiver's row |
| Kkrt.KkrtOtExt | yasl/mpctools/ot/kkrt_ot_extension.cc:184-319 | a whole run, for every number of OTs: Eval(i, inputs[i]) is recv_blocks[i] |
| KkrtStream.BatchRows1024 | yasl/mpctools/ot/kkrt_ot_extension.cc:349-375 | 1024 rows at a time, the streams advancing by eight blocks and the last batch partial |
| KkrtStream.CopyBlocks | yasl/mpctools/ot/kkrt_ot_extension.cc:364-374 | copies the rows that exist, stopping in a partial block |
| KkrtStream.KkrtOtExtReceiver.Init | yasl/mpctools/ot/kkrt_ot_extension.cc:421-477 | T and U are the rows of the two streams and no correction has been sent |
| KkrtStream.KkrtOtExtReceiver.Encode | yasl/mpctools/ot/kkrt_ot_extension.cc:496-510 | puts the input's code on its row of U only, and returns the oracle on the row of T; refuses more than 16 bytes |
| KkrtStream.KkrtOtExtReceiver.ZeroEncode | yasl/mpctools/ot/kkrt_ot_extension.cc:512-516 | uses up a row with the zero code |
| KkrtStream.KkrtOtExtReceiver.ShiftCorrection | yasl/mpctools/ot/kkrt_ot_extension.cc:518-534 | hands over the next rows of U and moves on by as many |
| KkrtStream.KkrtOtExtSender.Init | yasl/mpctools/ot/kkrt_ot_extension.cc:321-380 | fails exactly on its guards; otherwise Q is the rows of the stream and no correction has arrived |
| KkrtStream.KkrtOtExtSender.RecvCorrection | yasl/mpctools/ot/kkrt_ot_extension.cc:382-414 | masks the next rows in and moves on; refused, changing nothing, on a wrong count or beyond the last row |
| KkrtStream.KkrtOtExtSender.Encode | yasl/mpctools/ot/kkrt_ot_extension.cc:416-419 | the PRF on the row, an error for a row that does not exist |
| KkrtRuns.NextInv | yasl/mpctools/ot/kkrt_ot_extension.cc:321-534 | every step of either party keeps: T and U are stream rows with their codes, the batches on their way are the rows between the two positions, Q is corrected up to the sender's |
| KkrtRuns.CorrectedRowsCorrelate | yasl/mpctools/ot/kkrt_ot_extension.cc:382-397 | in every run and for every corrected row: q_i = T_i ^ (code_i & S) |
| KkrtRuns.EncodingsAgree | yasl/mpctools/ot/kkrt_ot_extension.cc:382-510 | for every corrected row encoded with x both parties' encodings of x are equal |
| KkrtRuns.StreamingOprf | yasl/mpctools/ot/kkrt_ot_extension.cc:321-534 | over whole runs, any batches: from the arrival of its correction on, both parties' encodings of what row i was encoded with are equal |
| Channel.ChannelBase.constructor | yasl/link/transport/channel.h:138-152 | all counters at zero, nothing received, no throttle |
| Channel.ChannelBase.SetThrottleWindowSize | yasl/link/transport/channel.h:100-102 | only the window changes |
| Channel.ChannelBase.TakeMessage | yasl/link/transport/channel.cc:68-88 | takes the message of a key out of the database; fails, changing nothing, on a reserved key or when there is none |
| Channel.ChannelBase.Recv | yasl/link/transport/channel.cc:68-92 | and one ack follows a message taken |
| Channel.ChannelBase.OnNormalMessage | yasl/link/transport/channel.cc:94-107 | counts the message; keeps it for a reader, or acks it at once when its key is taken or nobody reads any more |
| Channel.ChannelBase.OnMessage | yasl/link/transport/channel.cc:109-124 | acks are counted, the first fin is kept, everything else is a normal message |
| Channel.ChannelBase.SendAsync | yasl/link/transport/channel.cc:181-200 | hands the message over, then counts it, and waits for that count; reserved keys are refused |
| ChannelRuns.ThrottleStep | yasl/link/transport/channel.cc:203-215 | every step keeps: a count either still waits for the throttle or has passed it, no more threads being in a send than may be |
| Channel.ChannelBase.StopReceivingAndAckUnreadMsgs | yasl/link/transport/channel.cc:240-248 | one ack for every unread message, which are dropped, and automatic acks from then on |
| Channel.ChannelBase.SendFin | yasl/link/transport/channel.cc:217-221 | the fin carries the number of messages counted as sent |
| ChannelRuns.ConservedStep | yasl/link/transport/channel.cc:68-107 | every step keeps the conservation of messages and acks, in both directions |
| ChannelRuns.StepInv | yasl/link/transport/channel.cc:68-277 | every step of either end keeps the whole invariant: conservation, counting, fins, passed waits, throttle |
| ChannelRuns.AckConservation | yasl/link/transport/channel.cc:68-107 | in every reachable state: acks sent + acks owed by a Recv in progress + unread messages = messages received |
| ChannelRuns.ThrottleBound | yasl/link/transport/channel.cc:181-215 | with a fixed window w >= 1 and k sending threads at most w - 1 + k messages handed over are ever unacked |
| ChannelRuns.ThrottleBoundReached | yasl/link/transport/channel.cc:181-215 | and for every w and k there is a run that reaches this |
| ChannelRuns.WindowIsBound | yasl/link/transport/channel.cc:181-215 | so the window bounds the unacked messages, in every state of every run, if and only if at most one thread sends at a time |
| ChannelRuns.ShutdownSafety | yasl/link/transport/channel.cc:217-277 | in every run, once WaitLinkTaskFinish has returned at an end, no normal, ack or fin message to it is in flight, and all its messages were received and acked |
| ChannelRuns.BlockedExactly | yasl/link/transport/channel.cc:217-277 | with both fins sent and nothing in flight, an end is blocked exactly if it is in its last wait and a Recv at the other end still owes an ack |
| ChannelRuns.RecvInProgressBlocks | yasl/link/transport/channel.cc:68-92 | a run in which that happens |
| ChannelRuns.NeverBlocked | yasl/link/transport/channel.cc:217-277 | it never does if no Recv is in progress at either end once both have stopped receiving |
| ChannelRuns.ShutdownTerminates | yasl/link/transport/channel.cc:217-277 | once both ends have stopped receiving every continuation is finite, with an explicit bound |
| ChannelRuns.ShutdownCompletes | yasl/link/transport/channel.cc:217-277 | and until both calls have returned some step can be taken |
| Chunking.BatchesPartition | yasl/link/transport/channel_brpc.cc:130-155 | no batch is empty and every chunk index is in exactly one batch |
| Chunking.PushBatch | yasl/link/transport/channel_brpc.cc:362-380 | one batch adds exactly its chunks, each the slice of the payload with its index |
| Chunking.SendChunked | yasl/link/transport/channel_brpc.cc:343-380 | pushes every chunk once, in order, with its index and the number of chunks |
| Chunking.JoinedChunks | yasl/link/transport/channel.cc:46-57 | the chunks of a payload joined in index order are the payload |
| Chunking.ChunkedMessage.constructor | yasl/link/transport/channel.cc:31-32 | an empty message |
| Chunking.WithChunkSized | yasl/link/transport/channel.cc:34-38 | the size stays the sum of the chunks exactly if the added index is new or the chunk empty |
| Chunking.ChunkedMessage.AddChunk | yasl/link/transport/channel.cc:34-38 | keeps the first chunk of an index, and adds the size in either case |
| Chunking.ChunkedMessage.Reassemble | yasl/link/transport/channel.cc:46-57 | the chunks in index order in one buffer of exactly their size, and an empty message |
| ChunkRuns.FullMeansAll | yasl/link/transport/channel.cc:44-44 | the number of chunks reaches the expected one exactly when every thread has added its own |
| ChunkRuns.StepInv | yasl/link/transport/channel.cc:126-173 | every step of every handler thread keeps: one shared message being filled, or one thread that has taken it and will deliver |
| ChunkRuns.DeliveredAtMostOnce | yasl/link/transport/channel.cc:126-173 | in every interleaving nothing but the payload is delivered, and that at most once |
| ChunkRuns.DeliveredExactlyOnce | yasl/link/transport/channel.cc:126-173 | when all threads have finished the payload has been delivered exactly once, unless it is empty, for which no chunk is sent |
| ChunkRuns.ReassembledComplete | yasl/link/transport/channel.cc:166-170 | when a thread reassembles, all chunks are there, the buffer has their size, and no thread is still adding |
| ChunkRuns.NobodyWaits | yasl/link/transport/channel.cc:126-173 | a thread that has not finished can always take its next step |
| ChunkRuns.RunsAreFinite | yasl/link/transport/channel.cc:126-173 | n chunks take at most 6 n steps |
| Ranks.RanksAreNeighbours | yasl/link/context.cc:73-79 | despite the unsigned wrap-around NextRank and PrevRank are the ring neighbours, below 2^62 parties |
| Ranks.AheadBehind | yasl/link/context.cc:73-79 | receiving from PrevRank(k) undoes sending to NextRank(k) |
| Barrier.RoundsHaveDistinctPeers | yasl/link/algorithm/barrier.cc:34-38 | offsets of different rounds give different peers, none of them the party itself |
| Barrier.StepInv | yasl/link/algorithm/barrier.cc:27-40 | every step keeps: each round's message exists exactly once from sending to reception and is acked once, nothing is received that was not sent, and each channel's counters move by this one message |
| Barrier.PredecessorsEntered | yasl/link/algorithm/barrier.cc:27-40 | a party past k rounds implies that its min(2^k, n) ring predecessors, itself included, have entered |
| Barrier.NobodyLeavesEarly | yasl/link/algorithm/barrier.cc:27-40 | in every run, of every world size and under all windows, no party leaves before all have entered |
| Barrier.KeyNeverAmbiguous | yasl/link/algorithm/barrier.cc:28-38 | under the one event key there are never two copies of a message, none is sent while one exists, and none is dropped as a duplicate |
| Barrier.LeastIsThrottled | yasl/link/algorithm/barrier.cc:34-39 | when nothing can be done, every least advanced party waits for the throttle |
| Barrier.ThrottledWaits | yasl/link/transport/channel.cc:203-215 | and that only under a window of 1, for the ack of a party as little advanced |
| Barrier.NobodyPasses | yasl/link/transport/channel.cc:203-215 | parties with window 1 whose targets of some round are among them: in every run none of them gets past its send of that round |
| Barrier.StuckExactly | yasl/link/algorithm/barrier.cc:27-40 | some run of the barrier gets stuck if and only if there is such a set of parties |
| Barrier.OneWindow | yasl/link/algorithm/barrier.cc:27-40 | with one window for all of at least two parties, some run gets stuck if and only if the window is 1 |
| Barrier.WindowOne | yasl/link/algorithm/barrier.cc:34-38 | and with a window of 1 no party gets past its first message in any run |
| Barrier.NeverStuck | yasl/link/algorithm/barrier.cc:34-39 | without such a set, until all have left some step can be taken |
| Barrier.RunsAreFinite | yasl/link/algorithm/barrier.cc:34-39 | every run ends: at most n (6 ceil(log2(n)) + 1) steps |
| Broadcast.VirtualNeighbours | yasl/link/algorithm/broadcast.cc:28-30 | NextRank and PrevRank add and subtract the stride in virtual rank space |
| Broadcast.VirtualRanksAreOneToOne | yasl/link/algorithm/broadcast.cc:50-52 | every virtual rank belongs to one rank |
| Broadcast.LowZero | yasl/link/algorithm/broadcast.cc:54-60 | a party waits for its message at strides up to its lowest set bit |
| Broadcast.ChildOf | yasl/link/algorithm/broadcast.cc:54-67 | the tree: a rank hangs off the one with its lowest set bit cleared, whose own is higher |
| Broadcast.AdvanceInv | yasl/link/algorithm/broadcast.cc:54-69 | a round without a reception keeps: every message on an edge of the tree, once, with the root's input |
| Broadcast.StepInv | yasl/link/algorithm/broadcast.cc:52-69 | every step keeps that |
| Broadcast.EveryoneGetsTheRootsInput | yasl/link/algorithm/broadcast.cc:34-72 | in every run a party that is through returns the root's input |
| Broadcast.ReceivesFromParent | yasl/link/algorithm/broadcast.cc:56-62 | each reception is the party's first and comes from v - lowbit(v) |
| Broadcast.AllMessagesMatched | yasl/link/algorithm/broadcast.cc:54-69 | when all are through n - 1 messages were sent, as many received, and none is left over |
| Broadcast.StepAck | yasl/link/algorithm/broadcast.cc:54-69 | every step keeps: the message to each child is counted and acked once on its channel, and a party waits for, or owes, only acks of the tree's edges |
| Broadcast.ThrottledMoves | yasl/link/transport/channel.cc:203-215 | what a party waits for at the throttle can always go on, whatever the window |
| Broadcast.NeverStuck | yasl/link/algorithm/broadcast.cc:54-69 | whatever the windows, until all are through some step can be taken |
| Broadcast.RunsAreFinite | yasl/link/algorithm/broadcast.cc:54-69 | every run ends: at most 3 n (floor(log2(n)) + 1) steps |
| P2p.DecimalInjective | yasl/link/context.cc:303-307 | different numbers print differently |
| P2p.P2pKeyInjective | yasl/link/context.cc:303-307 | within a context a key determines number, source and destination |
| P2p.EventKeysDiffer | yasl/link/context.cc:299-301 | keys of different events differ, whatever the algorithms append behind the number |
| P2p.KeysApart | yasl/link/context.cc:299-307 | no key of a collective algorithm is the key of a point-to-point message |
| P2p.NotReserved | yasl/link/transport/channel.cc:26-27 | and none is a reserved key |
| P2p.Context.Create | yasl/link/context.cc:41-65 | fails exactly on a rank out of range or a wrong number of channels; otherwise every direction of the world has a counter, at zero |
| P2p.Context.NextId | yasl/link/context.cc:299-301 | the next event number |
| P2p.Context.NextP2PId | yasl/link/context.cc:303-307 | counts one direction and no other, and gives the key of the new number |
| P2pRuns.DeliverLink | yasl/link/context.cc:159-191 | a message that arrives never meets its key in the database, so none is dropped |
| P2pRuns.StepInv | yasl/link/context.cc:159-191 | every step keeps, in every direction: each message sent exists exactly once until it is returned, under its number |
| P2pRuns.KthRecvIsKthSend | yasl/link/context.cc:159-191 | in every run, whatever order messages arrive in, the k-th Recv from a at b returns the value of a's k-th Send to b |
| P2pRuns.NoRecvIsStuck | yasl/link/context.cc:159-191 | once the k-th message has been sent the k-th Recv can return, at the latest after its delivery |
| CsvReader.OffsetStep | yasl/io/rw/csv_reader.cc:118-126 | reading a line at the offset of row k gives row k and leads to the offset of row k + 1; the text ends at the offset of the number of rows |
| CsvReader.InputStream.GetLine | yasl/io/stream/file_io.cc:57-67 | a line and the position behind it; the end flag is set by running into the end; nothing is read once it is set |
| CsvReader.InputStream.Seekg | yasl/io/stream/file_io.cc:78-87 | moves and clears the flags |
| CsvReader.CsvReader.UpdateRowMap | yasl/io/rw/csv_reader.cc:154-161 | adds the current row with its true offset unless the index has it or a later one |
| CsvReader.CsvReader.NextLine | yasl/io/rw/csv_reader.cc:118-126 | the current row, unless there is none |
| CsvReader.CsvReader.CountLines | yasl/io/rw/csv_reader.cc:108-116 | the index stays true and the number of rows becomes known |
| CsvReader.CsvReader.Init | yasl/io/rw/csv_reader.cc:63-106 | fails without a header line, with one the schema refuses, and with counting on a file without rows; otherwise a valid reader at row 0 |
| CsvReader.CsvReader.LastKnown | yasl/io/rw/csv_reader.cc:484-486 | the last indexed row up to the one sought |
| CsvReader.CsvReader.Seek | yasl/io/rw/csv_reader.cc:473-496 | succeeds exactly for the rows of the file, and for its end while the number of rows is unknown; where it leaves the reader in either case |
| CsvReader.CsvReader.ReadBatch | yasl/io/rw/csv_reader.cc:395-450 | the next rows in order; fails exactly when one of them does not fit or convert |
| CsvReader.CsvReader.NextRow | yasl/io/rw/csv_reader.cc:386-471 | rows i to min(i + k, total), keeping every index entry true and the row count, once known, the real one |
| CsvReader.CsvReader.Replay | yasl/io/rw/csv_reader.cc:386-496 | every history of calls, up to one that throws on a row, is answered as a plain list with a cursor would |
| CsvReader.SeekThenNext | yasl/io/rw/csv_reader.cc:386-496 | after Seek(i) successive batches give rows i to min(i + k, total), k the sum of their sizes, with no gap and no repetition |
| Numbers.DivUpMeaning | yasl/utils/parallel.h:16-16 | divup(x, y) pieces of size y cover x and one fewer does not |
| ParallelReduce.TasksPartition | yasl/utils/parallel_native.h:15-26 | for every range, grain and thread count: at most one task a thread, each non-empty and beginning where the one before stops, together the range; all but the last at least a grain long |
| ParallelReduce.TasksCover | yasl/utils/parallel_native.cc:79-89 | an index is in some task exactly if it is in the range |
| ParallelReduce.TasksDisjoint | yasl/utils/parallel_native.cc:79-89 | and in no two tasks |
| ParallelReduce.FoldSplit | yasl/utils/parallel_native.h:49-76 | for an associative operation with identity, folds of adjacent ranges combine to the fold of both |
| ParallelReduce.CombineTasks | yasl/utils/parallel_native.h:71-75 | combining the results of the first tasks in order is the fold over the range they cover |
| ParallelReduce.ParallelRun | yasl/utils/parallel_native.cc:71-106 | whatever order the tasks run in, each leaves its range's result in its own place |
| ParallelReduce.Reduce | yasl/utils/parallel_native.h:49-76 | fails on a grain that is not positive; otherwise the sequential fold, inside a parallel region or not |
| ParallelReduce.RunTasks | yasl/utils/parallel_native.cc:71-106 | whatever order the tasks run in, every index of the range is handled exactly once |
| ParallelReduce.For | yasl/utils/parallel_native.h:33-47 | fails on a grain that is not positive; otherwise every index of the range is handled exactly once and no other |

## Left out
- DpfScheme.DpfContext.Gen: the guard that compares the number of input bits with the natural logarithm of alpha is a parameter, as is the one in `Eval`; the theorems hold for every alpha and x, in or beyond the domain. The shift by the number of levels cut is undefined in the source from 32 on, which the method requires not to happen.
- DpfScheme.DpfContext.GetTerminateLevel: the floating-point formula of early termination is a parameter; every level up to the number of input bits is covered.
- Serialization of DPF keys, the bit numbers and security parameter stored in a key, and the range check of `GetBit`, which input bit numbers below 64 never reach.
- PuncturedOt.Choose: the choices are passed as booleans, not packed into a buffer; n = 2 and 3, which the packing refuses, end in its error.
- The masks of Eklundh's transpose are given as bit patterns, and the unrolled byte moves and shifts of the 128 x 1024 transpose as loops.
- KkrtStream.KkrtOtExtReceiver.Encode: row numbers out of range, which the source does not check, are excluded, as in `ZeroEncode` and `ShiftCorrection`; the memory of rows beyond a partial batch is unspecified.
- KkrtRuns.StreamingOprf: correction batches arrive in the order they were sent, which is what `P2pRuns.KthRecvIsKthSend` gives for one direction; each row is encoded once and before its correction is sent.
- ChannelRuns.ShutdownSafety: waits never time out, `SetThrottleWindowSize` is not called during a run, and no thread sends any more when `WaitLinkTaskFinish` is called. `Send` is covered as the runs of `SendAsync` whose reply comes before the count.
- ChunkRuns.DeliveredExactlyOnce: each chunk arrives once and a key carries one message; reading the number of chunks without a lock is an atomic step.
- Barrier.StuckExactly: one barrier at a time, under its one event key, on channels where everything sent before has been acked, and with windows that do not change; waits do not time out. Likewise one broadcast. `P2p.EventKeysDiffer` keeps different events apart.
- Channel.ChannelBase.SendAsync: ends where the throttle wait begins and returns the count waited for; the wait is a step of `ChannelRuns`, `Barrier` and `Broadcast`.
- Transpose.NaiveTranspose: only the instance of the template that the repository uses, 128 rows.
- P2pRuns.KthRecvIsKthSend: one context, in whose database only its own keys matter; counters are unbounded, the source's are `int`; the throttle wait at the end of a send is left to `ChannelRuns`. There is no channel from a party to itself.
- CsvReader.CsvReader.NextRow: what the reader does after a row that throws is not stated. Splitting and converting fields, header names, column mode and memory-mapped files are not part of this model.
- CsvReader.CsvReader.Init: whether a header line is acceptable, a row has the right number of fields, and its fields convert are parameters.
- CsvReader.CsvReader.CountLines: the batch size is positive; the source divides by it.
- ParallelReduce.Reduce: integers are unbounded, and tasks do not throw. Thread-pool start-up, thread numbers and the setting of the parallel-region flag around a task are not part of this model; whether a call is made inside a region is a parameter.
- Symmetric and public-key cryptography, hashing, random bit generators, base OTs, and every security claim: foreign code or probabilistic.
- `Gather`, `Scatter`, `AllGather`, `Spawn`, `SubWorld`, connection set-up, retries, logging and statistics: loops and plumbing that would only add easy members.
