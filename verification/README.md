# A verified model of the RAID engine

This project models the RAID module in `raid/`: the RAID5F data path, the protocol by which one parent
request is scattered over the base bdevs and gathered again, the address arithmetic of RAID0, RAID5F and the
concatenation, read balancing and mirror agreement in RAID1, and the life cycle of an array.

## How it is organised

The arithmetic that everything rests on is in `Bits.dfy` (digits, shifts, XOR), `Bytes.dfy` (XOR of byte strings) and
`Layout.dfy` (quotients and remainders, and where RAID5F puts data and parity).

RAID5F is built in layers.

- `Raid5Array.dfy` is the array as a machine over its disks: full-stripe writes, at most one lost disk, and the deliberate
  flip of one bit. `FlatDevice.dfy` proves that it behaves as one flat block device. In this version of the engine a read
  always ends in a reconstruction from the other disks, healthy array or not, so the statement about reads rests on whole
  stripes being consistent.
- `Iovecs.dfy` is the mapping of the caller's scatter list onto the chunks, loop by loop. `XorChain.dfy` is the chain of
  asynchronous XOR segments. `DataPath.dfy` joins the two: after preparation every chunk's list holds exactly what the
  array model says must go to that disk. `ReadPath.dfy` is the reconstruct read with its memory: the lists it fills, the
  buffers it reads into and the XOR into the caller's bytes.
- `Raid5Write.dfy` and `Reconstruct.dfy` are the protocols of a write and of a reconstruct read as step systems:
  submissions, resource-exhausted retries, hard errors and child completions in any order. `StripePool.dfy` is the
  channel: any number of both at once, drawing stripe requests from two free lists; `ChannelFate.dfy` says which
  parents are never completed, `ChannelStatus.dfy` with which status the others are, and `Submission.dfy` how a request is
  looked at, filled and only then taken.
  `StripeRequest.dfy` and `ReconstructRequest.dfy` are the same handlers as objects updated in place, each method tied
  to the function of the step system.
- `EndToEnd.dfy` puts the layers together for one request, from the caller's memory to the disks and back.
- `SharedArray.dfy` is the channel with the array behind it: writes and reads of any number of parents at once, on disks
  they share. `SharedProofs.dfy` proves that every event keeps the requests and the disks together and the disks in step
  with the array model, `SharedRuns.dfy` what follows over whole runs for the disks and the callers' memory, and
  `SharedCredit.dfy` for what the parents are told.

`FanOut.dfy` is the scatter/gather protocol shared by the other levels and `RaidIo.dfy` the object with its counters.
`Raid0.dfy`, `Raid0Request.dfy`, `Concat.dfy`, `ConcatRequest.dfy`, `Raid1.dfy` and `DataSizes.dfy` are the other levels.
`Configuration.dfy` covers creation parameters and the shifts derived from them; `Lifecycle.dfy` and `RaidBdev.dfy` an
array's life, as functions with proofs over runs and as an object.

## Assumptions about the surroundings

- A child's completion never runs inside the call that submits it.
- The XOR engine and the list iterator are outside the repository; their contracts are `XorChain.AccelXor` and
  `XorChain.SegmentLen`. The engine never answers that it is out of resources.
- Reset, flush and unmap children are refused only for lack of resources; the source asserts this.
- The random draw that decides the bit flip, the answers of the bdev layer and the outcome of every child are inputs.
- A quiesced array has no parent outstanding, so a base channel is put only then.
- The bdev layer splits reads at strips and writes at stripes, and no request is empty.
- `Configuration.ProductsFitIff` shows where unbounded numbers agree with the source's 32-bit ones; block numbers are
  taken not to exceed 64 bits.

## What turned out not to hold

- A reconstruct read one of whose submissions fails hard never completes, because that branch counts against n-1 although the
  counter was set to n. `Reconstruct.CompletesIffNotRefused` gives the exact condition, `Reconstruct.LeakExample` an instance.
- The completion of a healthy read ignores the result of submitting its reconstruction. `ChannelFate.DoomsIff` says exactly
  which steps doom a parent, by this or by a refused submission, `ChannelFate.DoomedForever` that it is then never completed
  and holds up every later removal of a disk, and `ChannelFate.CompletableIff` that every other parent can still be
  completed. `ChannelFate.StrandedRun` and `ChannelFate.RefusedRun` are runs that lose one.
- With a disk missing, the read of a chunk on another disk goes on to a reconstruction that asks the missing disk, whose
  channel is null: `EndToEnd.AsksPresentIff`.
- A concatenation with an empty range strictly inside a flush or unmap trips an assertion of the second pass:
  `Concat.SecondPassIff`, `Concat.SecondPassCanFail`.
- Overlapping removals can take an online array below its minimum. `Lifecycle.OperationalIff` gives the exact condition on the
  event, `Lifecycle.OverlapBreaksMinimum` that every removal which misses it can end so, `Lifecycle.CarelessRun` an instance.
  With a minimum of one the array can lose all its disks and stay online: `Lifecycle.EmptyOnlineRun`. Deleting it then trips
  an assertion (`Lifecycle.DeletesEmptyOnline`), and until then a mirror accepts the writes of the last item below.
- Removing a base bdev of an array whose level is being stopped can free the array before `raid_bdev_io_device_unregister_cb`
  is called on it, with no removals overlapping: `Lifecycle.FreedWhileStoppingRun`. `Lifecycle.FreedWhileOwedIff` says exactly
  which events free an array to which the bdev layer still owes a call.
- A removal from an array that is not online leaves its flag set, so that the removal of a base bdev added to that slot later
  is ignored: `Lifecycle.RemovalIgnoredIff`, `Lifecycle.IgnoredRemovalRun`. This takes a caller of
  `raid_bdev_add_base_device` other than the request that creates the array, and this repository has none.
- Shifts agree with quotients only for powers of two: `Bits.ShiftAgreesIff`, `Configuration.OddBlocksBreakShifts`. The 32-bit
  stripe size is exact under the condition of `Configuration.ProductsFitIff`, which small blocks can miss:
  `Configuration.SmallBlocksWrap`.
- A RAID1 write with every mirror missing is reported as successful: `MirrorWrite.NoMirrorStillSucceeds`.

## Model

| member | source | states |
|---|---|---|
| FlatDevice.Refinement | raid/raid5f.c:805-876 | after any run of writes without flips, healthy or with one disk lost, a read returns for every block the last data written to it |
| FlatDevice.ReadDelivers | raid/raid5f.c:734-876 | the same with flips allowed: what comes back differs from the last data exactly in the low bit of a strip's first block, and only if the stripe's last write flipped another disk's chunk |
| FlatDevice.ReadIsExactIff | raid/raid5f.c:498-508 | a delivered block equals the last data written if and only if no flip hit another disk of the stripe or the block is not first in its strip |
| FlatDevice.ZeroedIsKnown | raid/raid5f.c:1139-1184 | a newly started array on zeroed disks shows zeroes in every block, so the statements about reads cover all of it |
| FlatDevice.WriteIsLocal | raid/raid5f.c:689-722 | a full-stripe write leaves every block outside its own logical range as it was |
| Raid5Array.CoupledRun | raid/raid5f.c:474-522 | the coupling invariant over every run: each present disk stores what the stripe's last write put there, also after a disk is lost |
| Raid5Array.StaysZeroSum | raid/raid5f.c:305-382 | in a healthy array without flips the XOR of all disks over every known stripe stays zero |
| Raid5Array.DeriveStored | raid/raid5f.c:734-803 | XOR of the other disks re-derives a chunk, missing or not, exactly unless another disk's chunk was flipped |
| Raid5Array.Injection | raid/raid5f.c:498-508 | after a flipped write, stored and re-derived chunk differ in exactly the low bit of the first byte, on every disk, and re-deriving the flipped chunk gives the submitted data |
| Raid5Array.CleanIsStored | raid/raid5f.c:305-382 | a stripe whose rows sum to zero is one that a write of its own data would have produced |
| Layout.ParityRotates | raid/raid5f.c:187-191 | among any n consecutive stripes each disk holds parity exactly once |
| Layout.ParitySteps | raid/raid5f.c:187-191 | stripe 0 has its parity on the last disk, each next stripe has it one disk lower, and after disk 0 on the last again |
| Layout.DataAscends | raid/raid5f.c:836-841 | a stripe's data chunks lie on its other disks in ascending order, none left out |
| Layout.FirstStripe | raid/raid5f.c:836-847 | strip k of the first stripe lies on disk k from block 0 on, and the parity on the last disk |
| Layout.NextBlock | raid/raid5f.c:836-847 | the next logical block is the next block of the disk, after a strip the same row on the next data disk up, after a stripe the next row on the lowest |
| Layout.LocateThenLogical | raid/raid5f.c:836-847 | the read mapping sends logical blocks one-to-one into non-parity blocks, and agrees with the chunk the write path fills |
| Layout.LogicalThenLocate | raid/raid5f.c:836-847 | the read mapping reaches every non-parity block of the data regions |
| Iovecs.StripeChunks.MapIovecs | raid/raid5f.c:580-648 | the data chunks in ascending disk order get consecutive strips of the caller's bytes; apart from allocation failure the call fails exactly when too few bytes were supplied |
| Iovecs.StripeChunks.FillChunk | raid/raid5f.c:619-633 | the inner loop hands a chunk exactly the next bytes up to a strip, in slices that are not empty if the caller's are not, and leaves the three cursors consistent |
| Iovecs.StripeChunks.CountIovs | raid/raid5f.c:604-610 | the number of caller iovecs a strip touches, no more and no fewer |
| Iovecs.TilesAll | raid/raid5f.c:598-638 | the chunks' lists put together are the caller's bytes with no gap, overlap or reordering |
| XorChain.XorStripe | raid/raid5f.c:207-382 | the chain ends, its callback fires once, with an error if and only if a segment failed or was refused, and otherwise the destination is the bytewise XOR of all sources; nothing else changes |
| XorChain.SegmentLen | raid/raid5f.c:257-261 | a segment is positive and is the shortest of the current pieces |
| XorChain.XorJob.Callback | raid/raid5f.c:238-264 | a segment callback moves the chain on by the segment's length and keeps its invariant |
| XorChain.SegmentXor | raid/raid5f.c:276-303 | a finished segment extends the XOR-ed prefix of the destination |
| DataPath.PrepareWrite | raid/raid5f.c:689-722 | after mapping and parity every present disk's list holds its part of the stripe image of the caller's data and the caller's memory is untouched; rejected only for too few bytes or a refused allocation, parity failed only if a segment failed or was refused |
| DataPath.ParityBlocks | raid/raid5f.c:305-350 | the XOR of the chunks' bytes, cut into blocks, is the stripe's parity strip |
| DataPath.ChunkBlocks | raid/raid5f.c:598-638 | cutting the caller's bytes into strips and then blocks agrees with the array's cutting into blocks |
| DataPath.ReconstructDelivers | raid/raid5f.c:305-350 | once the buffers hold the other disks' blocks, their XOR is what the array model re-derives, block by block |
| EndToEnd.WriteRequestIsStep | raid/raid5f.c:474-722 | a prepared write that succeeds, under any interleaving, has done to the disks one step of the array model with the caller's data |
| EndToEnd.ReadBack | raid/raid5f.c:734-876 | after any run of the array and any interleaving of a reconstruct read, a parent completed with success has in the caller's memory, block by block, the last data written, with a low bit flipped exactly where the array delivers it so |
| EndToEnd.ReadBackExact | raid/raid5f.c:734-876 | without flips, exactly the last data written, healthy or with the disk lost |
| EndToEnd.FlipChunk | raid/raid5f.c:498-503 | the flip changes one byte of the caller's memory, and in the chunks' buffers exactly what the protocol's flip does, if the chunks share no memory |
| EndToEnd.AsksPresentIff | raid/raid5f.c:510-521 | the reconstruction asks only disks that are there if and only if the array is healthy or the read is for the missing disk |
| SharedRuns.DisksFollowWrites | raid/raid5f.c:689-876 | for any number of requests at once, on every stripe on which no write has started and the last one started did not fail, the disks store what the array model stores after the successful writes one after the other |
| SharedRuns.ReadsReturnLast | raid/raid5f.c:734-876 | for any number of requests at once, a read completed with success leaves in the caller's memory the last data of the writes completed with success, with a low bit flipped exactly where the array delivers it so |
| SharedCredit.WriteSucceedsIff | raid/raid5f.c:878-909 | over every run of the shared array, a write's parent stands completed with success if and only if its own write is among those the model is run on, and then once |
| SharedCredit.ReadSucceedsIff | raid/raid5f.c:404-431 | over every run, a read's parent stands completed with success if and only if its reconstruct read has ended well |
| SharedCredit.TornIff | raid/raid5f.c:395-402 | a stripe is torn exactly from when a write that had started on it ends without success until one succeeds on it |
| SharedRuns.StepInv | raid/raid5f.c:474-560 | every event keeps each write's view of its stripe, each read's buffers and the model in agreement with the shared disks |
| SharedProofs.StepOfChannel | raid/raid5f.c:689-876 | each event of the shared array is an event of the channel, so its runs are runs of the channel |
| SharedProofs.ParityFailureTouchesNothing | raid/raid5f.c:676-687 | after a failed parity computation every disk is as it was, no stripe is torn, and the parent has failed |
| SharedProofs.PreparedParity | raid/raid5f.c:689-722 | the parity computation of a write went well exactly if its preparation is ready to submit, and then the buffers are the stripe image |
| ReadPath.FillReadLists | raid/raid5f.c:765-793 | the chunk to rebuild gets the caller's iovecs, every other chunk its own buffer in ascending order; it fails exactly when a longer list is needed and cannot be had |
| ReadPath.FilledLists | raid/raid5f.c:765-793 | with buffers apart from each other and from the caller's bytes, the filled lists describe the request and do not overlap |
| ReadPath.SuccessDelivers | raid/raid5f.c:404-431 | for every order of submissions, refusals, completions and outcomes of the XOR, success means that the caller's memory holds what the array model delivers |
| ReadPath.XorDelivers | raid/raid5f.c:305-382 | with every other chunk in its buffer, the XOR of the sources delivers the request |
| ReadPath.RunXor | raid/raid5f.c:305-382 | the XOR chain, run on the request's lists, has the effect the protocol takes it to have, failing or not |
| Raid5Write.WriteCompletesOnce | raid/raid5f.c:395-560 | for every interleaving the parent completes at most once, exactly when nothing is in flight or to be submitted, fails if and only if a child failed or was abandoned, releases its request then, and flips at most one bit |
| Raid5Write.WriteSucceedsIff | raid/raid5f.c:532-556 | over every run a completed write succeeded if and only if no child failed and no pass met a hard error before a lack of resources; one met with nothing in flight fails the write at once |
| Raid5Write.RunOfFanOut | raid/raid5f.c:474-560 | a write is a run of the shared protocol, whose statements therefore hold of it |
| Raid5Write.ParityFailureEnds | raid/raid5f.c:676-687 | a failed parity computation completes the write as failed and releases its request, with no chunk submitted and nothing to come |
| Raid5Write.FlipsIffDrawn | raid/raid5f.c:498-503 | a chunk is flipped just before its submission if and only if none of the request was before and the draw says so |
| Raid5Write.WriteNeverStuck | raid/raid5f.c:453-560 | an uncompleted write always has a child in flight or a retry to come |
| Raid5Write.SuccessfulWriteIsWriteStripe | raid/raid5f.c:474-560 | a successful run of the protocol leaves on the disks exactly the stripe image with the flipped chunk, if any |
| Raid5Write.SubmitChunksReleases | raid/raid5f.c:492-556 | a submit pass releases the request exactly when it completes the parent, so ignoring the result for a skipped chunk is harmless |
| StripeRequest.StripeWrite.SubmitChunks | raid/raid5f.c:650-663 | the loop over chunks, updating the request in place, computes the protocol's pass |
| StripeRequest.StripeWrite.ChunkSubmit | raid/raid5f.c:474-560 | one submission with its skip, flip, retry and error branches is one step of the protocol |
| StripeRequest.StripeWrite.ChunkWriteComplete | raid/raid5f.c:395-402 | a chunk's completion is one step of the protocol, and the last one releases the request |
| StripeRequest.StripeWrite.Poison | raid/raid5f.c:498-503 | the flip changes the buffer of the chunk about to be submitted, once a request even across resubmissions |
| Reconstruct.XorStartsOnce | raid/raid5f.c:415-431 | the XOR starts at most once, then every other chunk has been read and none is in flight; a failed read prevents it |
| Reconstruct.CompletesAtMostOnce | raid/raid5f.c:404-431 | the parent completes at most once with nothing outstanding, the request is released exactly then, and success means that all chunks were read and the XOR ran |
| Reconstruct.CompletesIffNotRefused | raid/raid5f.c:532-556 | when nothing can happen any more the parent has completed if and only if no submission failed hard |
| Reconstruct.RefusedLeaks | raid/raid5f.c:546-549 | after a hard submit error one part stays outstanding for ever; without one, the parent has completed exactly when nothing is outstanding |
| Reconstruct.StepRefusedIff | raid/raid5f.c:532-556 | a read in progress becomes refused exactly by a retry in which a hard error comes before any lack of resources, and stays so |
| Reconstruct.QuietIsFinal | raid/raid5f.c:453-462 | having nothing in flight, queued or running is exactly having no event left |
| Reconstruct.LeakExample | raid/raid5f.c:546-549 | a refused first read of a three-disk array leaves the parent uncompleted for good |
| Reconstruct.StartIsLive | raid/raid5f.c:796-802 | a reconstruct read never completes inside its own submission |
| ReconstructRequest.StripeRead.ChunkReadComplete | raid/raid5f.c:415-431 | the handler, updating the counters in place, is the protocol's step and keeps its invariant |
| ReconstructRequest.StripeRead.ChunkSubmit | raid/raid5f.c:510-556 | one submission with the credited target, retry and error branches is one step of the protocol |
| ReconstructRequest.StripeRead.SubmitChunks | raid/raid5f.c:650-663 | the loop over chunks computes the protocol's pass |
| StripePool.PoolsConserved | raid/raid5f.c:193-203 | for any number of parents in any interleaving, free and used requests of each kind are always 32 together, never both, never twice in the list |
| StripePool.OneRequestAParent | raid/raid5f.c:689-803 | each request in use serves one parent, no parent has two, and a served parent has not been completed |
| StripePool.ParentsCompleteAtMostOnce | raid/raid5f.c:878-909 | over all runs of the channel each parent is completed at most once |
| ChannelFate.DoomsIff | raid/raid5f.c:532-556 | a step dooms a parent if and only if its direct read succeeds with no request free or no room for its list, or its reads are submitted and a hard error comes before any lack of resources |
| ChannelFate.DoomedForever | raid/raid5f.c:805-828 | a doomed parent is not completed after any extension of the run, and no disk can be removed any more |
| ChannelFate.CompletableIff | raid/raid5f.c:689-876 | over every run of the channel, a parent not yet completed has an extension of the run that completes it if and only if it is not doomed |
| ChannelFate.MovesOnIff | raid/raid5f.c:689-876 | over every run of the channel, some event concerns a parent not yet completed if and only if it is not doomed with nothing left in flight |
| ChannelFate.StrandedRun | raid/raid5f.c:826-827 | a run of a healthy three-disk array in which 32 reads occupy every reconstruct request and the success of the next one's direct read loses it |
| ChannelFate.RefusedRun | raid/raid5f.c:546-549 | a run that loses a read although a request was free and its list was stored |
| ChannelStatus.EndsIff | raid/raid5f.c:878-909 | a parent is completed with NoMemory exactly when no request is free or memory is refused, with Failed exactly when too few bytes came, its direct read was refused or failed or its request ended badly, with Success exactly when its request ended well |
| ChannelStatus.PutsIff | raid/raid5f.c:830-876 | what else becomes of a parent: directly read, queued, served by a write or a reconstruct request, or stranded, exactly when |
| ChannelStatus.StatusStays | raid/raid5f.c:878-909 | a status once reported does not change |
| ChannelStatus.ParityFails | raid/raid5f.c:676-687 | a failed parity computation fails the parent and frees its request, submits nothing, and leaves all other requests as they were |
| Submission.SubmitWrite | raid/raid5f.c:689-711 | the first free request is looked at, mapped, and only then taken; on every error the pool is as it was |
| Submission.SubmitRead | raid/raid5f.c:749-800 | a reconstruct request is taken exactly when one is free and the caller's list can be stored; otherwise the pool is as it was |
| Submission.ReportWrite | raid/raid5f.c:895-908 | a write ends at once with NoMemory when no request is free or memory is refused, with Failed when too few bytes came, otherwise its request is taken |
| Submission.ReportRead | raid/raid5f.c:749-800 | the read of a missing disk ends at once with NoMemory exactly if no request is free or the list cannot be stored |
| RequestPool.RequestList.constructor | raid/raid5f.c:1093-1109 | a new pool holds each of its requests once |
| RequestPool.RequestList.TakeFirst | raid/raid5f.c:711 | removing the request that was looked at keeps the pool conserved |
| RequestPool.RequestList.Put | raid/raid5f.c:193-203 | giving a request back keeps the pool conserved |
| FanOut.CompletesOnce | raid/bdev_raid.c:324-341 | for every interleaving the parent completes at most once, exactly when nothing is in flight or queued, successfully if and only if no child failed and none was abandoned |
| FanOut.PassOutcome | raid/bdev_raid.c:397-435 | a pass submits to the present targets before the first refusal and to no other; it abandons the parent if and only if that refusal is a hard error and waits if and only if it is for lack of resources |
| FanOut.RunOutcome | raid/raid1.c:186-206 | over every run the parent is abandoned if and only if some call met a hard error first, and waits if and only if the last call met a lack of resources first |
| FanOut.SucceedsIff | raid/bdev_raid.c:324-341 | a completed parent succeeded if and only if no child failed and no call met a hard error first; a hard error with nothing in flight fails it at once |
| FanOut.NeverStuck | raid/bdev_raid.c:397-435 | an uncompleted parent always has something to wait for |
| FanOut.IssuesEachOnce | raid/raid1.c:154-212 | each present target gets at most one child, in ascending order, missing ones none; a parent not abandoned has reached all present ones |
| FanOut.NeverReinitialised | raid/bdev_raid.c:408-410 | re-entering a submit handler after a retry never resets the counter of outstanding parts |
| FanOut.SkipIsNeverLast | raid/raid5f.c:493-496 | crediting a missing target never delivers the last part while a present one is pending |
| FanOut.CompletedHasSubmitted | raid/bdev_raid.c:397-435 | over every run without hard errors, a completed parent has had all its parts submitted |
| RaidIo.RaidBdevIo.CompletePart | raid/bdev_raid.c:324-341 | crediting parts updates counter and status and completes exactly at zero |
| RaidIo.RaidBdevIo.SubmitReset | raid/bdev_raid.c:397-435 | the resumable reset loop is the protocol's submission |
| RaidIo.RaidBdevIo.SubmitMirrorWrite | raid/raid1.c:154-212 | the resumable mirror write loop, with missing mirrors and hard errors, is the protocol's submission |
| Raid0.IoRange.GetIoRange | raid/raid0.c:150-184 | the range's ends in strips, disks and offsets |
| Raid0.IoRange.SplitIoRange | raid/raid0.c:186-234 | a piece is exactly the blocks of its disk between the request's marks; no subtraction underflows and the assertion holds |
| Raid0.ExactCover | raid/raid0.c:186-234 | a physical block lies in a piece if and only if its logical block lies in the request, for every offset, length and disk count |
| Raid0.BelowSplits | raid/raid0.c:78-91 | the closed form counts exactly the blocks of a disk whose logical number is below a mark |
| Raid0.InvolvedIff | raid/raid0.c:175-183 | the disks visited are exactly those the request reaches |
| Raid0.DistinctDisks | raid/raid0.c:295-298 | the disks visited are pairwise distinct |
| Raid0.PiecesConserve | raid/raid0.c:290-336 | the pieces' sizes sum to the length of the request |
| Raid0.EndsMeet | raid/raid0.c:198-209 | on every involved disk the strips do not run backwards, which is the source's assertion |
| Raid0.ZeroLengthActsAsOne | raid/raid0.c:160-183 | a request of no blocks is cut as the request of one block |
| Raid0.MapRequest | raid/raid0.c:60-93 | rejected exactly when it crosses a strip on more than one disk; otherwise the blocks are consecutive on the disk returned |
| Raid0.LogicalOfLocate | raid/raid0.c:78-91 | the read and write mapping is one-to-one |
| Raid0.LocateOfLogical | raid/raid0.c:78-91 | the read and write mapping reaches every block |
| Raid0.NextBlock | raid/raid0.c:78-91 | block 0 is block 0 of disk 0; the next block is the next one of the disk, after a strip the same row on the next disk, after the last disk the next row on disk 0 |
| Raid0.Start | raid/raid0.c:338-376 | data sizes become the smallest rounded down to strips, and the array's size their sum |
| Raid0.BlocksFitExactly | raid/raid0.c:350-364 | with these sizes the array's blocks are exactly the blocks of the data regions |
| Raid0Request.SubmitNullPayload | raid/raid0.c:269-336 | each call, first or resumed, hands out the pieces that come next and is the protocol's submission |
| Raid0Request.RunNullPayload | raid/raid0.c:286-336 | the handler run through any run of the protocol: its calls have handed out the request's pieces up to the counter, each once and in order, and all of them on completion |
| Raid0Request.OnePieceADisk | raid/raid0.c:290-303 | each disk the request reaches gets one piece, no other disk gets any |
| Concat.Start | raid/concat.c:274-311 | ranges of whole strips follow one another and add up to the array's size |
| Concat.Route | raid/concat.c:81-91 | the scan finds the one range that holds the offset, with empty ranges present or not |
| Concat.OneStripOneBdev | raid/concat.c:307-308 | a request inside one strip never crosses a base bdev |
| Concat.MappingBijective | raid/concat.c:81-91 | every block of the array has exactly one place in the data regions and every place is a block |
| Concat.FindEnds | raid/concat.c:191-221 | the first pass finds the base bdevs of the first and last block; its assertions hold |
| Concat.EndsUnique | raid/concat.c:191-221 | those two base bdevs are determined by the request |
| Concat.PiecesTile | raid/concat.c:226-234 | the pieces tile the request in order, each within its base bdev |
| Concat.SecondPassIff | raid/concat.c:228-230 | the assertions of the second pass hold if and only if no base bdev strictly between the ends is empty |
| Concat.SecondPassCanFail | raid/concat.c:228-230 | an array with an empty middle range on which they fail |
| ConcatRequest.SubmitNullPayload | raid/concat.c:170-272 | each call, first or resumed, hands out the next pieces of the same tiling and is the protocol's submission |
| ConcatRequest.SecondPass | raid/concat.c:226-271 | the second pass skips what was handed out and continues from there |
| ConcatRequest.RunNullPayload | raid/concat.c:223-271 | the handler run through any run of the protocol: its calls have handed out the tiling's pieces up to the counter, each once and in order, and all of them on completion |
| Raid1.ReadBalancer.Next | raid/raid1.c:90-107 | the mirror chosen is live and least busy, the first of those; none exactly when no live counter is below its maximum |
| Raid1.ReadBalancer.SubmitRead | raid/raid1.c:109-152 | a read goes to the chosen mirror and is counted exactly when that accepts it, is queued exactly when it lacks resources, and fails exactly when there is no mirror or it answers with an error |
| Raid1.ReadBalancer.ReadComplete | raid/raid1.c:31-39 | each counter stays equal to the blocks in flight to its mirror, so the decrement never underflows |
| Raid1.OutstandingWithout | raid/raid1.c:59-68 | a completed read takes away exactly its own blocks |
| MirrorWrite.SuccessReachesAll | raid/raid1.c:154-212 | a write that succeeds, under any interleaving, has stored its data on every live mirror and nothing elsewhere |
| MirrorWrite.MirrorsAgree | raid/raid1.c:109-212 | over any run of successful writes and lost mirrors every live mirror holds the last data written to each block |
| MirrorWrite.NoMirrorStillSucceeds | raid/raid1.c:179-184 | with every mirror missing a write is reported successful without reaching a disk |
| Configuration.MinimumOperational | raid/bdev_raid.c:975-1020 | accepted constraints give a minimum between 1 and n, exactly the intended one despite the 8-bit subtraction |
| Configuration.Raid5DataChunks | raid/raid5f.c:1214-1217 | under the constraint of RAID5F an array is accepted exactly from three base bdevs on, with n-1 data chunks |
| Configuration.Configure | raid/bdev_raid.c:1142-1168 | accepted exactly when all block sizes agree and the strip is not empty |
| Configuration.KbExactOrZero | raid/bdev_raid.c:1162 | for a power of two the 32-bit conversion to bytes is exact or gives zero |
| Configuration.StripIsPow2 | raid/bdev_raid.c:1162-1168 | every accepted strip is a power of two and exactly the configured number of bytes |
| Configuration.ProductsFitIff | raid/raid5f.c:1169 | the 32-bit stripe size and the shift of the read path are exact if and only if the configured bytes stay below the limit counted in blocks |
| Configuration.ProductsFit | raid/raid5f.c:841-847 | so with blocks of at least 256 bytes nothing on the RAID5F path overflows |
| Configuration.ShiftedReadCoordinates | raid/raid5f.c:841-847 | the shifts of the read path compute the layout's coordinates |
| Configuration.ShiftedStrip | raid/raid0.c:78-91 | shift and mask are the quotient and remainder by the strip size |
| Configuration.OddBlocksBreakShifts | raid/bdev_raid.c:1162-1168 | with 520-byte blocks the accepted strip and its shift disagree |
| Configuration.SmallBlocksWrap | raid/raid5f.c:1169 | with 64-byte blocks an accepted 2 GB strip makes the 32-bit stripe size of 129 disks zero |
| Configuration.StartRaid5 | raid/raid5f.c:1139-1184 | data sizes and array size are those of the layout for the smallest base bdev |
| Bits.IsPow2Iff | raid/bdev_raid.c:975 | the bit test finds exactly the powers of two, for which the logarithm is exact |
| Bits.ShiftAgreesIff | raid/bdev_raid.c:1167-1168 | shifting by the logarithm is dividing, for all numbers, if and only if the divisor is a power of two |
| Lifecycle.CountsOpen | raid/bdev_raid.c:214-234 | over every run, overlapping removals or not, the counter equals the open descriptors and is at most n, and a freed array has none open |
| Lifecycle.OperationalIff | raid/bdev_raid.c:1376-1400 | an online array keeps its minimum through an event if and only if the event is not a removal, or takes it offline, or leaves one to spare after the removals under way |
| Lifecycle.KeepsMinimum | raid/bdev_raid.c:1348-1403 | over every run of such events an online array keeps its minimum |
| Lifecycle.Transitions | raid/bdev_raid.c:1130-1236 | online is entered only from configuring with all slots open, and offline is never left |
| Lifecycle.GoesOnlineIff | raid/bdev_raid.c:1525-1592 | a configuring array goes online if and only if the base bdev that comes is opened and claimed, its data fits, all other slots are open, the level starts and registration succeeds |
| Lifecycle.ComesOpen | raid/bdev_raid.c:1525-1592 | which slots are open, named and flagged after a base bdev has come |
| Lifecycle.DeleteTakesOffline | raid/bdev_raid.c:1484-1523 | deleting an online array takes it offline and unregisters it, with every descriptor still open and every slot flagged |
| Lifecycle.DeletionFrees | raid/bdev_raid.c:236-289 | from any reachable online array with no removal pending, deletion, the destructor and the callback follow one another and free it with nothing open and nothing owed |
| Lifecycle.DeleteOnce | raid/bdev_raid.c:1484-1523 | a second deletion changes nothing; deleting an array that is not online closes everything and frees it |
| Lifecycle.DestructCloses | raid/bdev_raid.c:260-289 | the destructor closes exactly the flagged slots, at shutdown all, and then the array is offline |
| Lifecycle.ShutdownFrees | raid/bdev_raid.c:236-289 | at shutdown any reachable online array with no removal pending is freed with nothing open |
| Lifecycle.RemovalCarriedOut | raid/bdev_raid.c:1264-1285 | a removal that goes well closes and clears its slot and changes nothing else |
| Lifecycle.RemovalUndone | raid/bdev_raid.c:1264-1285 | a removal whose quiesce is refused, fails or cannot be ended leaves slots, counters and state exactly as they were |
| Lifecycle.RemovalAtMinimum | raid/bdev_raid.c:1386-1392 | a removal the array cannot spare takes it offline; the destructor closes that slot only, and the callback frees the array if and only if it was the last |
| Lifecycle.RemovalOffline | raid/bdev_raid.c:1376-1385 | a removal from an array not online closes the slot and frees the array if and only if no other is open |
| Lifecycle.OverlapBreaksMinimum | raid/bdev_raid.c:1386-1400 | after any run that kept the minimum, every removal that misses that condition has a continuation that ends online and one below the minimum |
| Lifecycle.CarelessRun | raid/bdev_raid.c:1386-1400 | a run from creation to below the minimum |
| Lifecycle.EmptyOnlineRun | raid/bdev_raid.c:1386-1400 | a run from creation after which a mirror is online with no disk open, and deleting it trips the assertion |
| Lifecycle.RemovalIgnoredIff | raid/bdev_raid.c:1367-1374 | a removal from an array at rest is ignored if and only if the slot is already flagged |
| Lifecycle.FlagOutlivesRemoval | raid/bdev_raid.c:1371-1385 | a removal from an array not online leaves its flag to a base bdev added to the slot later |
| Lifecycle.IgnoredRemovalRun | raid/bdev_raid.c:1367-1374 | a run from creation in which the removal of such a base bdev is ignored |
| Lifecycle.AddingAsserts | raid/bdev_raid.c:1139-1140 | on the events of a run adding and examining trip no assertion on the state |
| Lifecycle.DeletesEmptyOnline | raid/bdev_raid.c:1484-1523 | over every run, deleting trips its assertion if and only if the array is online with no slot open, which no run that kept its minimum brings about |
| Lifecycle.FreedWhileOwedIff | raid/bdev_raid.c:1376-1385 | exactly which events free an array to which the bdev layer still owes a call |
| Lifecycle.FreedWhileStoppingRun | raid/bdev_raid.c:236-250 | a run from creation, its removals one after the other, that frees an array whose unregistration callback is still to come |
| Lifecycle.StepInv | raid/bdev_raid.c:1484-1592 | every event keeps the counter equal to the open descriptors |
| RaidBdev.Array.FreeBaseBdevResource | raid/bdev_raid.c:214-234 | closing a slot decrements the counter exactly when it was open; the assertion on the counter holds |
| RaidBdev.Array.ConfigureBaseBdev | raid/bdev_raid.c:1525-1592 | opening a slot counts it, the counter stays at most n, the array is configured exactly when all are open; says when the assertions on the state hold |
| RaidBdev.Array.Configure | raid/bdev_raid.c:1130-1206 | a level that does not start changes nothing, a failed registration leaves the array configuring |
| RaidBdev.Array.AddBaseDevice | raid/bdev_raid.c:1607-1639 | in any state, a slot is taken exactly if it exists and has no name; says when the assertions on the state hold |
| RaidBdev.Array.ExamineBdev | raid/bdev_raid.c:1651-1668 | examining never opens a slot of an array that is not configuring |
| RaidBdev.Array.RemoveBaseBdev | raid/bdev_raid.c:1348-1403 | removal in all its branches, with the assertions of closing, taking offline and freeing |
| RaidBdev.Array.RemovalEnds | raid/bdev_raid.c:1264-1285 | the end of a removal closes the slot exactly if it went well, and clears the flag |
| RaidBdev.Array.Delete | raid/bdev_raid.c:1484-1523 | deletion takes an online array offline with its descriptors open, closes and frees any other; its assertion fails exactly for an online array with nothing open |
| RaidBdev.Array.Destruct | raid/bdev_raid.c:260-289 | destruction closes the flagged slots, or all at shutdown |
| RaidBdev.Array.IoDeviceUnregistered | raid/bdev_raid.c:236-250 | the callback after the level has stopped frees an array with none left, with no descriptor open |

## Left out

- I/O metadata buffers and their XOR: they share state across requests and the data-path theorems do not need them.
- The accel retry queue: a retry re-reads buffers shared by the channel, so the engine is assumed never to be out of resources.
- Reads of chunks on present disks while another disk is missing: what the bdev layer does with the null channel is not known.
- Crash consistency and the write hole: refinement is about writes whose children all succeed.
- The bdev layer, quiesce, threads, channels and the list iterator: contracts or inputs.
- Allocation failure and the free paths, beyond an early error.
- RPC, JSON, names, level tables, memory domains, resize: they would only add easy members.
- The two compression directories, the shell scripts and fio configurations: the codecs are not visible.
- The commented-out comparison of a read with its reconstruction: nothing is claimed about reporting mismatches.
- Iovecs.StripeChunks.MapIovecs: a chunk's list is a sequence in an array, so reallocation is only its room and answer; the metadata pointers are not modelled.
- XorChain.XorStripe: destination bytes are taken not to repeat and not to be source bytes.
- DataPath.PrepareWrite: the parity buffer is taken not to overlap the caller's memory.
- StripeRequest.StripeWrite.Poison: works on the chunks' buffers as values; EndToEnd.FlipChunk is the same flip in the caller's memory.
- EndToEnd.FlipChunk: chunks are taken not to share memory; a caller that passes the same bytes twice would see one flip in two chunks.
- ReadPath.FilledLists: the reconstruct buffers are taken not to overlap each other or the caller's memory, and the caller's iovecs to cover exactly the blocks read.
- ReadPath.SuccessDelivers: the disks are taken not to change while the read is under way; SharedRuns.ReadsReturnLast lets them change.
- SharedRuns.ReadsReturnLast: callers keep a write apart from other requests on its stripe, and each read has a memory of its own.
- SharedRuns.DisksFollowWrites: nothing is claimed about a stripe after a write that had started on it has failed, until one succeeds on it.
- Raid0.MapRequest: the length is positive, as the bdev layer promises; flush and unmap of no blocks are covered by Raid0.ZeroLengthActsAsOne.
- Concat.FindEnds: the offset lies inside the array, also for a request of no blocks.
- ConcatRequest.SubmitNullPayload: models the code with its assertions compiled out; Concat.SecondPassIff says when they hold.
- Raid1.ReadBalancer.Count: the counters are unbounded, so the assertion against 64-bit overflow is not modelled.
- RaidBdev.Array.ConfigureBaseBdev: data offsets of the superblock are an answer, whether the data fits.
- Lifecycle.CountsOpen: devices are added only while the array is configuring, as the creating request does.
- RaidBdev.Array.IoDeviceUnregistered: the level's stop and the device's unregistration are one wait before it.
