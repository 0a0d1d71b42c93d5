# Formal model of the storage core

This project models four parts of the disk-image tools in Dafny and proves what they promise:

- **AWE_FS_Alloc** (`Awe*.dfy`), a file held in physical memory. A linked list of blocks is reached
  through 2 MB page mappings; one mapping is cached in a slot that requests swap with their own, and
  a try-lock with a read-to-write upgrade guards it all. `AweFile` is the file as its code updates it,
  one request at a time, proved against a plain byte array, with what the system grants as an input.
  `AweThreads` is every interleaving of the requests of any number of threads, and `AweThreadsProof`
  what holds in all of them. The two are one model: each request of `AweFile` is also proved to be a
  run of the steps of `AweThreads`, put together in `AweAlone`.
- **The dynamic VHD engine and the request server of devio** (`Chunks`, `Vhd*`, `FlatDisk`,
  `DevioServer`). `VhdLayout` says what an image file stands for: the flat disk behind its Block
  Allocation Table. `VhdImage` is the code that reads, writes and allocates through that table.
  `FlatDisk` is what a client sees on the stream, and `DevioServer` is the server loop, proved to
  behave as that flat disk for whole sessions.
- **DevIoDrv request forwarding** (`Irp*`, `FileTable*`). `IrpQueues` gives one step for each region
  under the queue lock, with the requests in the hands of threads as part of the state; `IrpCounting`
  and `IrpRuns` prove that requests are conserved, and `IrpTheorems` and `IrpOrder` draw the
  consequences. `IrpCauses` explains every completion by an event of the run; `IrpReplies` is what
  clients receive from a server that can change its buffer at any time, and `IrpDisconnect` what a
  disconnect leaves behind. `IrpServing` is the retry with a larger buffer in every interleaving, `IrpHandshake` and `IrpRounds` its rounds one by one. `IrpContext` is
  the open object as the driver updates it in place, and `IrpFlush` the server's exchange and its retry
  loop against that object. `FileTable`, `FileTableProof` and `FileTableContext` do the same for the
  table of named objects.
- **The master boot record tools** (`Chs`, `Mbr*`): address conversion, the builder that overwrites a
  buffer, the partition walker with its callbacks, when the chains that it follows end (`MbrChains`),
  when the walk itself ends, with a callback that stops it (`MbrStops`), which bytes of the disk each
  reported partition stands in (`MbrReports`), examples of all that (`MbrDisks`), and the round trip
  between builder and walker.

`Bytes` holds the overwrite operation and the integer encodings that all of them share, `Basics` a
few small definitions.
`dafny verify dfyconfig.toml` checks everything.

## Results that differ from what comments or callers expect

- The scan for an all-zero block in `vhd_write` never finds one: its loop condition is false from the
  start as long as there is anything to scan (devio/devio.c:830-834). Writing zeros into a missing
  block therefore allocates it. `VhdImage.VhdImage.VhdWrite` proves the growth that follows from the
  code; `VhdWrites.ZerosIntoHole` proves that skipping would not have changed the disk.
- The bitmap update of `vhd_write` can miss the last sector; `VhdBitmap.CoversExactlyWhen` gives the
  exact condition and `VhdBitmap.UnmarkedSector` an input.
- A server request that is in the hands of a thread during a disconnect is queued afterwards
  (`IrpDisconnect.StrandedRequest`), and from then on nothing but the cancellation of another
  disconnect completes it (`IrpDisconnect.StrandedUntilCancel`); `IrpDisconnect.DisconnectLeavesHands`
  says exactly which requests a disconnect leaves open.
- The length of a read response is checked in the server's buffer and read there again for the copy.
  If the server changes it in between, the copy leaves the client's buffer or the server's:
  `IrpReplies.OverrunExactly` says exactly in which runs, `IrpReplies.CheckedSixteenCopied65536` is one
  of them, and `IrpReplies.ReadersGetTheirResponse` is what clients can rely on from a server that
  leaves its responses alone.
- The header is added to the length of a write in 32 bits, so the copy of a write of nearly 4 GiB does
  not fit the buffer that is accepted for it (`IrpReplies.WriteCopyFits`,
  `IrpReplies.WriteCopyLeavesBuffer`).
- A client request can wait while an exchange waits too. `IrpOrder.BothWait` says exactly after which
  runs, with any number of exchanges and with disconnects: a request was put back for the size of a
  buffer while an exchange waited, and neither queue has been empty since.
  `IrpOrder.TwoExchangesCanWaitWithARequest` is such a run; with one exchange at a time there is none
  (`IrpOrder.ServedInOrder`).
- An open that fails while the table lock is taken loses a reference for good
  (`FileTableProof.LostReference`); `FileTableProof.LastLeaves` says exactly when an entry is freed.
- The doubled buffer size wraps at 32 bits. `IrpHandshake.EnoughExactly` says exactly which requests
  get room from a buffer of whole pages, `IrpServing.TooLargeForEver` that all others are refused for
  ever, and `IrpServing.LargeReadIsNeverSent` is a run that brings such a request.
- A disk with eight or more partitions makes `FscryptDiskGetPartitionInfoIndirect` return FALSE, while
  inc/fscryptdisk.h:701-704 promises TRUE when a table is found and its values are stored;
  `MbrPartitions.EightPartitions` is such a disk.
- `FscryptDiskGetSinglePartitionInfoIndirect` returns TRUE without a partition for number zero when the
  walk fails, as on an empty disk (`MbrPartitions.EmptyDiskFails`). When the walk ends at all, it does
  so in no other case (`MbrPartitions.GetSinglePartitionInfoIndirect`).
- The walk over the partitions need not end, since a chain of extended boot records can come back to an
  offset. `MbrStops.WalkEndsExactly` says exactly when it goes on for ever: the first chain that is not
  complete goes round without a report, and fewer partitions than the callback takes are reported
  before that. `MbrDisks.LoopNeverEnds` is such a disk; at `MbrDisks.RingEnds` the chain goes round too,
  but reports a partition each time, so that the callback stops the walk.

## Model

| member | source | states |
|---|---|---|
| AweBlocks.FindPage | awefsalloc/awefsalloc.c:590-624 | below the total size the search through the block list stops at the block that holds the whole page of the position, and that page of the block is that page of the file |
| AweBlocks.StoreThrough | awefsalloc/awefsalloc.c:590-660 | storing through the run that the search finds changes exactly the file bytes at the position, and no block's place or size |
| AweBlocks.LinkBlock | awefsalloc/awefsalloc.c:1131-1156 | a block linked at the head keeps every old byte and every old search result, and adds its whole pages at the end |
| AweBlocks.Descending | awefsalloc/awefsalloc.c:1118-1156 | the list is strictly descending, 2 MB aligned and reaches down to offset zero |
| AweFile.RequiredPages | awefsalloc/awefsalloc.c:142-144 | rounding what is missing up to pages and adding it to an aligned total gives the size rounded up to pages |
| AweFile.AweFile.TryAcquireProtection | awefsalloc/awefsalloc.c:411-482 | refuses exactly when the counters say busy for this kind of request, and counts one holder otherwise |
| AweFile.AweFile.ReleaseProtection | awefsalloc/awefsalloc.c:484-520 | gives back the holds it is told to, and only those |
| AweFile.AweFile.ExchangeMapPage | awefsalloc/awefsalloc.c:522-539 | swaps the caller's page with the shared one |
| AweFile.AweFile.MapPage | awefsalloc/awefsalloc.c:541-676 | whatever pages the two slots held, the caller ends with a mapping of the page it asked for or with an empty slot; a new mapping is asked for exactly when neither slot shows the page, and the call fails exactly when it is not granted; every mapping that came in is in a slot or released; the missing and the undersized block cannot occur; for a page of the file this is a run of the steps of `AweThreads` |
| AweFile.AweFile.MapNewPage | awefsalloc/awefsalloc.c:588-676 | a new mapping, if the system grants it, shows the wanted page of the file, and otherwise nothing is left mapped |
| AweFile.AweFile.AddBlock | awefsalloc/awefsalloc.c:1131-1156 | memory of less than a page is refused; otherwise the file is extended by its whole pages and nothing else changes |
| AweFile.AweFile.FreeTail | awefsalloc/awefsalloc.c:1165-1195 | releases the shared mapping and every block that starts at or past the new end, and keeps the bytes of the rest |
| AweFile.AweFile.Grow | awefsalloc/awefsalloc.c:1204-1392 | ends with the wanted size at most one page below the total, also when the allocator grants less than was asked, or leaves size and bytes as they were; it fails only at a block that the system does not give, and exactly if the total stays short; every request is at most the largest block |
| AweFile.AweFile.SetSize | awefsalloc/awefsalloc.c:1158-1393 | success keeps the bytes below both sizes and leaves no block at or past the new size; failure keeps size and content, and is exactly a growth for which the system does not give a block; either way this is a run of the steps of `AweThreads` |
| AweFile.AweFile.LoadPage | awefsalloc/awefsalloc.c:1005-1028 | bytes read through a mapping are the file's bytes at that position |
| AweFile.AweFile.StorePage | awefsalloc/awefsalloc.c:1029-1036 | bytes written through a mapping replace exactly the file's bytes at that position |
| AweFile.TransferOn | awefsalloc/awefsalloc.c:958-1043 | two adjoining chunk copies are one copy |
| AweFile.AweFile.CopyPages | awefsalloc/awefsalloc.c:958-1043 | the chunk loop copies exactly the requested range between file and buffer, or, when a page cannot be mapped, exactly the part before that page; no mapping is lost or kept; the loop is a run of the steps of `AweThreads` |
| AweFile.AweFile.ReadWrite | awefsalloc/awefsalloc.c:794-1044 | a read returns the array's bytes, cut at the end of the file, and changes nothing; a write puts the data at its place, growing the file when needed, and keeps every other old byte. With what the system grants as an input, an invalid range, a busy lock, a busy upgrade and a start past the end are answered exactly where they occur, lack of memory or resources only where the next block or mapping is refused, and everything else succeeds; the lock is given back on every way out; from return to return the request is a run of the steps of `AweThreads` |
| AweFile.AweFile.GrowFor | awefsalloc/awefsalloc.c:892-942 | the upgrade is refused exactly while another holder is there; it either grows the file and keeps the read lock, or gives up both locks and keeps the content; either way this is a run of the steps of `AweThreads` |
| AweFile.AweFile.SetEndOfFile | awefsalloc/awefsalloc.c:1521-1570 | is refused exactly while the file is in use; otherwise resizes under the write lock and releases it, and fails exactly if the system does not give a block that growing needs; this is a run of the steps of `AweThreads` |
| AweFile.AweFile.Close | awefsalloc/awefsalloc.c:1818-1843 | leaves no memory, no block and no mapping, and is the closing step of `AweThreads` |
| AweThreadsProof.InvPreserved | awefsalloc/awefsalloc.c:411-676 | every step of every thread keeps the counters, the block list, the slots and the ownership of mappings right |
| AweThreadsProof.ReachedInv | awefsalloc/awefsalloc.c:794-1044 | whatever state a thread that has the file to itself leads to, as each request of `AweFile` is proved to do, the invariant of all interleavings holds there |
| AweThreadsProof.ExclusionInEveryRun | awefsalloc/awefsalloc.c:411-520 | in every interleaving the counters are the numbers of holders and a writer excludes every other reader and writer, its own upgraded read hold excepted |
| AweThreadsProof.RefusedExactly | awefsalloc/awefsalloc.c:411-482 | in every interleaving a thread gets in exactly when no other holder keeps it out: to read while nobody writes and a count is left, to write while nobody holds the lock, and from reading to writing while it is the only holder |
| AweThreadsProof.NoDanglingPage | awefsalloc/awefsalloc.c:522-676 | in every interleaving no slot, shared or local, refers to freed memory or to a released mapping, and each shows the part of the file it says |
| AweThreadsProof.CopyHitsFile | awefsalloc/awefsalloc.c:958-1043 | in every interleaving a copy changes exactly the bytes of the page that its thread wanted |
| AweThreadsProof.OneOwner | awefsalloc/awefsalloc.c:522-588 | in every interleaving each live mapping is in exactly one slot and was never released before |
| AweThreadsProof.ReleasedOnce | awefsalloc/awefsalloc.c:541-588 | in every interleaving a step that releases a mapping releases one that is live and never was released before, and a mapping stops being live only so |
| AweThreadsProof.StableWhileReading | awefsalloc/awefsalloc.c:864-942 | while a thread only reads, no other thread changes the block list, the size or which memory is allocated |
| AweThreadsProof.SearchSucceeds | awefsalloc/awefsalloc.c:590-624 | in every interleaving a thread that searches the list finds a block with the whole page in it |
| AweThreadsProof.NothingLeftAfterClose | awefsalloc/awefsalloc.c:1818-1843 | closing after all requests leaves no memory, no mapping and a free lock |
| VhdLayout.StoreData | devio/devio.c:921-929 | data stored in an allocated block changes exactly the disk bytes that the block backs there |
| VhdLayout.StoreBitmap | devio/devio.c:931-951 | bytes written in a block's bitmap sector change no disk byte and no other block |
| VhdLayout.AllocateBlock | devio/devio.c:857-919 | allocation keeps the image well formed with the footer last, the regions apart and the table clear, fills exactly one table entry, adds one block and its bitmap, and does not change the disk |
| VhdImage.HoleInEitherOrder | devio/devio.c:745-749 | the missing-block value is the same before and after the byte swap |
| VhdLayout.HighestFirst | devio/devio.c:745-749 | table entries are stored with their highest byte first |
| VhdImage.LocatePart | devio/devio.c:720-755 | the table entry of a block says where the bytes of a disk range are, or that they are zero |
| VhdImage.VhdImage.VhdRead | devio/devio.c:704-773 | a range inside the disk is returned exactly, however many blocks it crosses; a range that reaches past the end returns nothing |
| VhdImage.VhdImage.Allocate | devio/devio.c:857-919 | the table entry and the zeroed block with the footer behind it, as one allocation |
| VhdImage.VhdImage.StorePart | devio/devio.c:921-951 | writes the data and sets the bitmap bytes, which stay inside the bitmap sector |
| VhdImage.VhdImage.WriteFirst | devio/devio.c:798-951 | the part of a write in one block, with allocation when the block is missing |
| VhdImage.VhdImage.VhdWrite | devio/devio.c:775-965 | a write inside the disk replaces exactly that range of the disk, keeps the image well formed, its header unchanged and the footer last, never moves a block, and grows the file by one block and bitmap for each missing block it meets; a write of nothing or past the end does nothing |
| VhdWrites.WroteBoth | devio/devio.c:953-962 | a part up to a block's end followed by the rest is one write, in content, growth and table |
| VhdWrites.ZerosIntoHole | devio/devio.c:826-855 | zeros written to a missing block would not change the disk |
| VhdWrites.RoomAfterWrite | devio/devio.c:857-919 | file size plus what the missing blocks still need is the same after a write as before, so there is room for every write to come |
| VhdBitmap.StaysInSector | devio/devio.c:931-942 | for blocks of up to 2 MiB the bitmap update of any write in a block stays inside the block's bitmap sector |
| VhdBitmap.CoversExactlyWhen | devio/devio.c:931-942 | every written sector is marked if and only if the two remainders by 4096 do not carry over |
| VhdBitmap.AlignedIsCovered | devio/devio.c:931-942 | a write that starts on a 4096-byte boundary of the block is marked in full |
| VhdBitmap.UnmarkedSector | devio/devio.c:931-942 | 1024 bytes at 3584 leave the second sector unmarked |
| FlatDisk.FrameFields | inc/fscryptdproxy.h:56-115 | code, offset, length and data stand at their places in a request's bytes |
| FlatDisk.WriteReply | devio/devio.c:1086-1112 | the two words of the reply to a write: error 9 and no length on a read-only device, no error and no length for a write past the end of a dynamic disk, no error and the whole length otherwise; an acknowledged write is on the disk and nothing else has changed but for zeros where the disk grew; one that is not acknowledged has changed nothing |
| FlatDisk.ReadReply | devio/devio.c:985-1057 | the reply to a read: no error, the length up to the largest buffer, and the bytes of the disk, zero past the end of a plain file, and zeros only for a range that is not wholly inside a dynamic disk |
| FlatDisk.OtherReplies | devio/devio.c:670-700 | size, alignment and flags for an information request, error 19 for an unknown one, and no change |
| FlatDisk.ReadsSeeLatestWrite | devio/devio.c:985-1144 | in any session, when the reply to a write says no error and a length, a later read of that range brings its data, whatever is served elsewhere before and in between |
| FlatDisk.ReadOnlySession | devio/devio.c:1086-1089 | in any session every write to a read-only device is answered with error 9 and no length |
| FlatDisk.UntouchedBytes | devio/devio.c:1059-1144 | bytes that no write of a session meets stay as they were |
| FlatDisk.ReadOnlyNeverChanges | devio/devio.c:1083-1088 | no session changes a read-only device |
| FlatDisk.DynamicKeepsSize | devio/devio.c:797-798 | no session changes the size of a dynamic disk |
| FlatDisk.RepliesCompose | devio/devio.c:2179-2209 | the replies of a session are those of its parts, one after the other |
| Bytes.LittleEndianRoundTrip | inc/fscryptdproxy.h:88-131 | an integer field read from the stream is the integer that was sent |
| DevioServer.DevioServer.LogicalRead | devio/devio.c:967-974 | the buffer gets the flat disk's bytes, in either image mode |
| DevioServer.DevioServer.LogicalWrite | devio/devio.c:976-983 | the flat disk gets the data, or stays as it is when a dynamic disk refuses the range |
| DevioServer.DevioServer.ReadData | devio/devio.c:985-1057 | takes exactly its header from the stream, answers with the flat disk's bytes at the shifted offset, and grows the buffer when needed; a short stream answers nothing |
| DevioServer.DevioServer.WriteData | devio/devio.c:1059-1144 | takes exactly its header and data, changes the flat disk accordingly and answers; a write larger than the buffer changes nothing and ends the session |
| DevioServer.DevioServer.ServeOne | devio/devio.c:2179-2207 | one turn takes one request's frame from the stream and sends its reply, or recognises the end of the session: closed, cut between requests, cut in a header or in write data, or a write that is too long |
| DevioServer.DevioServer.DoComm | devio/devio.c:2179-2209 | for any list of requests and any of the five endings the final content is that of the flat disk after the requests, the output is their replies in order, each at the content of its moment, and the exit code says whether the session stopped inside a request; a closing frame is the last thing read |
| IrpRuns.BalancedStep | deviodrv/irpfwd.cpp:46-963 | a step moves requests between queues, hands and completions without losing or doubling one, and uses an address only for one live item |
| IrpRuns.CancelLogCount | deviodrv/irpfwd.cpp:46-150 | a disconnect completes every queued request, each once |
| IrpRuns.JudgeCompletes | deviodrv/irpfwd.cpp:450-614 | every branch for a response completes exactly the client request that it answers, and none when it answers none |
| IrpRuns.InvPreserved | deviodrv/irpfwd.cpp:46-963 | every step keeps the kinds of items in the queues and the conservation of requests and addresses |
| IrpTheorems.OnePlaceInEveryRun | deviodrv/irpfwd.cpp:388-963 | after any run every request given to the driver is in exactly one queue, hand or completion, and nothing else is anywhere |
| IrpTheorems.CompletedOnce | deviodrv/irpfwd.cpp:178-213 | after any run no request has been completed twice |
| IrpTheorems.QueuedItemsHoldNoBuffer | deviodrv/irpfwd.cpp:79-101 | after any run no queued item holds a memory buffer, so completing it under the queue lock never takes that lock again |
| IrpTheorems.TagsAreUnique | deviodrv/irpfwd.cpp:152-176 | the search for a tag finds the one request that was sent with it |
| IrpTheorems.TagFindsItsRequest | deviodrv/irpfwd.cpp:427-448 | a response with a sent request's tag takes that request in hand |
| IrpTheorems.ResponseCompletesIt | deviodrv/irpfwd.cpp:450-614 | the only next step of that thread completes the request, on every branch, and leaves it nowhere else |
| IrpCauses.EveryCompletionHasItsCause | deviodrv/irpfwd.cpp:46-963 | after any run every completion goes back to an event of the run that explains its status, length and notice. A client succeeds only by a response with its kind, a fitting length and no error, given by a thread that holds that very request, and is told the length of its kind; a device error is such a response with an error, or one that does not match; each other status of clients, exchanges and memory locks has its causes likewise |
| IrpCauses.ResponsesDecide | deviodrv/irpfwd.cpp:450-627 | in every run a response that matches the request in hand completes it, as a success exactly if the server reports no error and else as a device error, and the exchange goes on; one that does not match, or whose data cannot be copied, fails both |
| IrpCauses.CompletesExactly | deviodrv/irpfwd.cpp:335-963 | a step completes something exactly in the cases in which the code refuses, transfers, answers or cancels |
| IrpCauses.CancelAnswers | deviodrv/irpfwd.cpp:60-150 | in every run a cancellation answers each locked buffer with a success of 4096 bytes and the closing notice, and every queued exchange and client request with the loss of the device |
| IrpCauses.BuffersAreTheirs | deviodrv/irpfwd.cpp:215-293 | after any run the buffer that an exchange has in hand is its own, or memory locked under the key it names, and the size taken for it is that of this buffer |
| IrpReplies.ReadersGetTheirResponse | deviodrv/irpfwd.cpp:450-614 | in every run with a server that leaves its responses alone, a read that succeeds brings data; the data of a read are exactly the bytes that stood in the buffer in a response to that very request, no more than it asked for; other requests get no data, and no length above their own |
| IrpReplies.OverrunExactly | deviodrv/irpfwd.cpp:460-492 | after any run some copy has left the client's buffer or the server's if and only if some response passed both checks and was longer when its length was read for the copy |
| IrpReplies.CheckedSixteenCopied65536 | deviodrv/irpfwd.cpp:460-492 | a run that ends with a response whose length is 16 at the checks and 65536 at the copy; the read is completed as a success of 16 bytes, and the copy has left its buffer |
| IrpReplies.WriteCopyFits | deviodrv/irpfwd.cpp:740-767 | the copy of a write fits every buffer that is accepted for it if and only if header and data together are below 2^32 |
| IrpReplies.AcceptsExactly | deviodrv/irpfwd.cpp:709-833 | a request of any kind is put into exactly those buffers that hold the header and what it carries, unless a read or a write of nearly 4 GiB wraps the sum |
| IrpReplies.WriteCopyLeavesBuffer | deviodrv/irpfwd.cpp:740-767 | a write whose copy does not fit although its buffer is accepted |
| IrpDisconnect.DisconnectLeavesHands | deviodrv/irpfwd.cpp:46-150 | a disconnect empties the four queues; a request is still to be completed afterwards if and only if it is in a thread's hands |
| IrpDisconnect.QuietDisconnectCompletesAll | deviodrv/irpfwd.cpp:46-150 | with nothing in hand a disconnect completes everything, once |
| IrpDisconnect.StrandedUntilCancel | deviodrv/irpfwd.cpp:46-97 | in every run from a disconnected object an exchange in the queue is completed, once, if the run has another disconnect's cancellation in it, and otherwise stays in the queue |
| IrpDisconnect.StrandedRequest | deviodrv/irpfwd.cpp:629-653 | a run after which a server request is queued at a disconnected object, and in every continuation is completed only by another disconnect |
| IrpOrder.OrderPreserved | deviodrv/irpfwd.cpp:629-963 | with one exchange outstanding every step keeps arrivals equal to deliveries, then the request in hand, then the queue |
| IrpOrder.ServedInOrder | deviodrv/irpfwd.cpp:629-963 | after any run with one exchange outstanding, requests went to the server in their order of arrival, also when one was put back, and not both sides wait |
| IrpOrder.ExchangesWaitInLine | deviodrv/irpfwd.cpp:629-672 | after any run, with any number of exchanges, those that waited before and still do are the last of them in their order, and those that came later stand behind |
| IrpOrder.TwoExchangesCanWaitWithARequest | deviodrv/irpfwd.cpp:709-720 | a run with two exchanges after which both sides wait |
| IrpOrder.BothStep | deviodrv/irpfwd.cpp:709-720 | with any number of exchanges and with disconnects, a step after which both sides wait, when they did not before, is a request put back for the size of a buffer while an exchange waits, and nothing else |
| IrpOrder.BothWait | deviodrv/irpfwd.cpp:629-963 | after any run both sides wait if and only if there was such a step and neither queue has been empty since |
| IrpServing.HandshakeInEveryRun | deviodrv/irpfwd.cpp:709-765 | in every run of a server that doubles its buffer on each refusal, whatever the clients do: a request that is first in line stays first until it goes to the server, is refused at most as often as the buffer has to be doubled for it, and the transfer after that many refusals is the one that sends it |
| IrpServing.TransferDecides | deviodrv/irpfwd.cpp:709-757 | in every such run a request is refused if and only if it does not fit the buffer of as many doublings as there were refusals before |
| IrpServing.ServesKept | deviodrv/irpfwd.cpp:178-293 | every step keeps that the server has one locked buffer of the size that the refusals so far lead to, wherever the buffer is |
| IrpServing.TooLargeForEver | devio/devio.c:526-528 | a request that no doubling makes room for is first in line and not sent after any such run |
| IrpServing.TooLargeExactly | devio/devio.c:526-528 | from any buffer of whole pages no doubling makes room if and only if the request needs more than the longest region still to come |
| IrpServing.LargeReadIsNeverSent | deviodrv/irpfwd.cpp:709-757 | from a buffer whose size is a power of two, a run that brings a read of one byte more than 2 GiB first in line, after which no run that the server's rules allow sends it |
| IrpServing.RoomExactlyTo2GiB | devio/devio.c:526-528 | from a buffer whose size is a power of two some doubling makes room if and only if the request needs at most 2 GiB behind the header |
| IrpHandshake.RoundRefused | deviodrv/irpfwd.cpp:183-188 | the server's lock and exchange with a buffer that is too small run to the end, leave the request first in its queue and return both with the refusal |
| IrpHandshake.RoundDelivered | deviodrv/irpfwd.cpp:709-765 | the server's lock and exchange with a buffer that is large enough run to the end, deliver the first request and keep the memory locked |
| IrpHandshake.HandshakeDelivers | devio/devio.c:480-549 | the rounds with the least sufficient number of doublings run to the end and deliver the first request after as many refusals |
| IrpHandshake.DoublingsSuffice | devio/devio.c:526-528 | from any buffer of whole pages a request of up to 2 GiB gets room after at most the rounded-up binary logarithm of length by size |
| IrpRounds.HandshakeObeys | devio/devio.c:480-549 | these rounds are a run that the server's rules allow, with one refusal for each doubling |
| IrpRounds.RequestIsDelivered | deviodrv/irpfwd.cpp:709-751 | from any buffer of whole pages a request of up to 2 GiB is delivered by the rounds with the least sufficient number of doublings |
| IrpFlush.ExchangeIs | deviodrv/irpfwd.cpp:388-672 | an exchange with one locked buffer and any response that is taken completes the request that it answers; then the first waiting request goes into the buffer if it fits, and otherwise stays first while exchange and buffer are given back |
| IrpFlush.ExchangeWaits | deviodrv/irpfwd.cpp:629-672 | when no request waits, such an exchange is queued and its buffer back in its queue |
| IrpFlush.ArrivalIs | deviodrv/irpfwd.cpp:674-963 | the request that comes next finds both, and the outcome is as if it had waited before |
| IrpFlush.ExchangeFails | deviodrv/irpfwd.cpp:427-627 | an exchange whose response is not taken, because its tag was not sent or its kind or length is wrong, is completed as invalid |
| IrpFlush.DriverBuffer.DrvFlush | devio/devio.c:480-549 | against the driver's open object, starting with an exchange that carries any response: the loop fails exactly if the response is not taken; otherwise the answered request is completed, and the next request, the first that waits or else the one that comes, ends up in the buffer if it is of up to 2 GiB; each turn but the last is an exchange that the driver refused for size, and there are as many as doublings are needed |
| IrpHandshake.SizesDouble | devio/devio.c:338-399 | sizes of whole pages double exactly while they fit 32 bits, with nothing added by the rounding |
| IrpHandshake.RoundsUp | devio/devio.c:338-360 | below 4 GiB the header and the rounded size fill whole pages, with less than a page more than was asked for |
| IrpHandshake.GrowsExactlyTo | devio/devio.c:526-528 | a buffer whose size is a power of two reaches a length if and only if the length is at most 2 GiB |
| IrpHandshake.EnoughExactly | devio/devio.c:526-528 | from any buffer of whole pages some number of doublings makes room, and then there is a least one, if and only if the request needs no more than the longest region of the next twenty |
| IrpContext.ObjectContext.GetSentClientRequest | deviodrv/irpfwd.cpp:152-176 | takes out the first sent request at the tag, or nothing |
| IrpContext.ObjectContext.ReserveMemoryIrp | deviodrv/irpfwd.cpp:215-293 | an exchange's own buffer, else the first locked one with its key, which leaves its queue, else the right error |
| IrpContext.ObjectContext.CompleteIrpQueueItem | deviodrv/irpfwd.cpp:178-201 | a refusal for size also completes the memory request; any other completion puts the memory back first |
| IrpContext.ObjectContext.SendClientRequestToServer | deviodrv/irpfwd.cpp:674-869 | run without interference it is the run of the corresponding steps |
| IrpContext.ObjectContext.DispatchClientRequest | deviodrv/irpfwd.cpp:871-963 | likewise for a client request, and a new request at a free address keeps the invariant of all runs |
| IrpContext.ObjectContext.DispatchServerIORequest | deviodrv/irpfwd.cpp:388-672 | likewise for an exchange, and it keeps the invariant of all runs |
| IrpContext.ObjectContext.DispatchServerLockMemory | deviodrv/irpfwd.cpp:335-386 | likewise for a memory lock, and it keeps the invariant of all runs |
| IrpContext.ObjectContext.CancelAll | deviodrv/irpfwd.cpp:46-150 | the three loops empty the four queues and complete each item with its own status and notice, in order, and keep the invariant of all runs |
| FileTableProof.InvPreserved | deviodrv/filetable.cpp:52-259 | every step keeps names and entries distinct, counts right, servers attached and data clients few |
| FileTableProof.NamesStayUnique | deviodrv/filetable.cpp:141-216 | after any run any two names in the table differ in length or in some capital, whatever table of capitals the system has |
| FileTableProof.NothingFreedWhileHeld | deviodrv/filetable.cpp:218-259 | after any run the entry of every attached or opening file object is in the table, and its count covers all of them |
| FileTableProof.OneDataClient | deviodrv/filetable.cpp:52-139 | after any run an entry with its server attached has at most one other file object with access to data |
| FileTableProof.WritersWereLetIn | deviodrv/filetable.cpp:98-132 | after any run a file object that can write has been able to since a step of the run in which it created the entry, or was the second in it and asked to write while the entry was not read-only |
| FileTableProof.LastLeaves | deviodrv/filetable.cpp:124-139 | after any run the last file object to leave an entry, by a close or after a failed open, frees it if and only if no failed open on it, this one included, was unable to give back its reference since the entry was created |
| FileTableProof.LostReference | deviodrv/filetable.cpp:133-136 | a run, for any name, after which nobody holds an object and its name cannot be created again |
| FileTableContext.ObjectTable.CreateFileTableEntry | deviodrv/filetable.cpp:141-216 | busy exactly with the lock taken, a collision exactly if an entry has the name, no resources only without memory; otherwise the entry is added in front with its server; any failure changes nothing, and the table's invariant is kept |
| FileTableContext.ObjectTable.OpenFileTableEntry | deviodrv/filetable.cpp:52-139 | answers as `OpenDecides` says, from the table as it was, and is the run of the lookup, the decision and, on failure, the close; the table's invariant is kept |
| FileTableContext.OpenDecides | deviodrv/filetable.cpp:52-139 | an open succeeds exactly if an entry has the name, metadata is asked for only after the server told a size, anything else only by the second file object, and writing only if the entry is not read-only; each failure has its exact guard; a success gets exactly the access asked for; a failure leaves the entry without a client whose place it took, or with a lost reference if the lock was taken at the end, and the rest as it was |
| FileTableContext.ObjectTable.CloseFileTableEntry | deviodrv/filetable.cpp:218-259 | with the lock taken does nothing; else forgets the file object as server or client, takes one reference, and removes the entry exactly with the last one |
| Chs.ChsRoundTrip | cpl/drvio.c:3024-3080 | converting to packed form and back is the identity where cylinder, head and sector fit, also when the cylinder size wraps, and elsewhere the packed value is the largest one |
| Chs.LbaToChs | cpl/drvio.c:3038-3080 | the packed value fits in 24 bits |
| Chs.PackIsOr | cpl/drvio.c:3073-3076 | or-ing the shifted and masked fields, bit by bit, makes the packed value |
| MbrBuild.StoreEntry | cpl/drvio.c:2999-3018 | the overlapping stores leave the sixteen bytes of the table entry and nothing else |
| MbrBuild.WholeSectors | cpl/drvio.c:2979-2987 | sector numbers are the whole sectors in a number of bytes, dropping a rest, and those of a negative number are counted down from 2^64 |
| MbrBuild.BuildMBR | cpl/drvio.c:2953-3022 | the buffer gets the record of the partitions, or of those before the first that 32-bit sector numbers cannot hold; wrong sizes and counts change nothing |
| MbrBuild.EntryIn | cpl/drvio.c:2977-3018 | every entry of the record is where it belongs |
| MbrBuild.RestEmpty | cpl/mbr.c:47-80 | the rest of the table is empty and the signature is in place |
| MbrBuild.EntryAddresses | cpl/drvio.c:2995-3012 | the two packed addresses in the table entry of a partition convert back to its first and its last sector where cylinder, head and sector fit, and are the largest ones elsewhere |
| MbrWalk.WalkRecord | cpl/drvio.c:575-624 | one extended record's used entries go to the callback up to the first container |
| MbrWalk.WalkChain | cpl/drvio.c:535-625 | the records of the chain are visited in order until it ends, breaks or the callback stops |
| MbrWalk.GetPartitionInfoIndirectEx | cpl/drvio.c:462-637 | the callback gets every listed partition once, in order, until it stops the walk; the result says whether it was stopped, the disk was corrupt or a read failed |
| MbrWalk.ListNumbered | cpl/drvio.c:601-632 | listed partitions are numbered consecutively from one, in 32 bits |
| MbrReports.ReportsAreEntries | cpl/drvio.c:508-632 | every reported partition stands in an entry of the boot record or of a record of the chain behind one, with start, length, type and boot flag from those sixteen bytes, the start counted from the record that the entry is in; reports come in the order of the entries; and every such entry that the walk comes to is reported |
| MbrReports.ChainIs | cpl/drvio.c:547-624 | the same for one chain: the entries before the first container of each record visited, and no others, record by record |
| MbrReports.NextRecord | cpl/drvio.c:574-589 | a chain goes on from the first container entry of a record, by its sector number counted from the first record of the chain, and ends if there is none |
| MbrReports.RecordIs | cpl/drvio.c:552-572 | an extended record is a whole readable sector with the signature at its end and no flag but the boot indicator in any entry |
| MbrWalk.EnoughRecords | cpl/drvio.c:547-625 | the listing of a chain that ends does not depend on how many records one is ready to look at |
| MbrChains.EndsExactly | cpl/drvio.c:547-595 | the listing of a chain, without a callback that stops it, ends if and only if no two visited offsets coincide, and one more record than there are sector numbers decides it |
| MbrStops.WalkEndsExactly | cpl/drvio.c:547-637 | the walk that the code performs, with either callback: some number of records ends it if and only if a round of records for each report that the callback takes does; and it goes on for ever if and only if the first chain that is not complete goes round without a report, and fewer reports than the callback takes come before that |
| MbrStops.OutcomeSettles | cpl/drvio.c:547-637 | once the walk has ended, more records change neither what the callback got nor, if it did not stop the walk, the listing |
| MbrStops.FedStops | cpl/drvio.c:645-673 | the callback for an array stops when its slots are used up, a count of zero wrapping, and the callback for one number at that partition, number zero coming up after all others |
| MbrDisks.LoopNeverEnds | cpl/drvio.c:547-595 | at a disk of two extended records that link to each other nothing is ever listed, so that the walk with any callback is never done, for any number of records |
| MbrDisks.RingEnds | cpl/drvio.c:595-624 | at a disk whose extended record links to itself and has a partition the chain repeats, and the walk with either callback ends all the same |
| MbrDisks.TwinListed | cpl/drvio.c:582-624 | a disk with two linked extended records, whose two partitions are listed at bytes 1024 and 2048 |
| MbrPartitions.GetPartitionInfoIndirect | cpl/drvio.c:645-692 | eight cleared slots get the first partitions; says whether the walk ended, and if it did, the result is TRUE exactly for a complete listing of fewer than eight |
| MbrPartitions.GetSinglePartitionInfoIndirect | cpl/drvio.c:659-718 | for any 32-bit number says whether the walk ended; if it did, the partition with the number is stored and TRUE returned exactly when there is one, or for number zero when there is no boot record or a read failed; so TRUE means that a partition was stored exactly unless all of that is the case |
| MbrPartitions.EightPartitions | cpl/drvio.c:645-692 | a disk with a complete listing of eight partitions, the case in which the array request returns FALSE |
| MbrPartitions.EmptyDiskFails | cpl/drvio.c:694-718 | on an empty disk the walk fails, the case in which the request for number zero returns TRUE |
| MbrPartitions.BuildThenWalk | cpl/drvio.c:2975-3021 | up to four aligned partitions that are not containers come back from the built record with the same start, length, type, boot flag and number |
| MbrPartitions.RoundTripExactly | cpl/drvio.c:2975-3021 | a storable partition survives the round trip if and only if it is aligned, not negative, and neither unused nor a container |

## Left out

- IRP cancellation, interrupt levels and the spin locks themselves: a region under a lock is one step.
- Crash consistency of VHD allocation: claims are about completed writes.
- VhdImage.VhdImage.VhdWrite: requires an image that stays below the 2 TiB that table entries can address; for a write of nothing to a missing block it leaves out that the zero scan looks for a word that is not zero beyond the request.
- VhdImage.VhdImage.VhdRead: physical reads and writes are complete up to the end of the file; their error returns are not modelled.
- Decoding of the VHD header: table offset, table size, block size and disk size are numbers here; the 64-bit decoder sign-extends bytes and is not part of this model.
- AweFile.AweFile.SetSize: says nothing about the content of bytes that growing exposes, which the code does not clear.
- AweFile.AweFile.Grow: the allocator is one abstract step that grants at most what was asked; the 32-bit placement retries, descriptors and error logging are not modelled.
- AweFile.AweFile.AllocatePages: what the allocator has to give for each block is an input, and its content is not said.
- AWE query, control and image-load handlers and the statistics counters, which have little logic.
- DevioServer.DevioServer.BufRealloc: memory is always available; when it is not, the code keeps the old buffer with the new size.
- DevioServer.DevioServer.DoComm: the stream transport with answers that always arrive; offsets below 2^63 and request sizes of the 32-bit build; the shared-memory transport, whose cursor checks are simple, is not modelled.
- Command line, partition scan at start-up, sockets, library mode and logging of devio.
- IrpReplies.ReadersGetTheirResponse: the range lists of zero and trim requests are not copied in the model; only their lengths and results are.
- IrpOrder.ServedInOrder: for runs up to a disconnect and with one exchange outstanding, as devio issues them.
- IrpServing.HandshakeInEveryRun: for runs up to a disconnect, with one exchange and one locked buffer at a time, as devio issues them.
- The checks that answer a client before it reaches the queues (access, empty requests, write protection) and the information response's fields in `IrpQueues`; `FileTable` has the size and the read-only flag.
- IrpContext.ObjectContext.DispatchServerIORequest: the server process may change its buffer at any time, so the tag, the response code and each read of the length are inputs; the lengths are those of a 64-bit driver.
- IrpFlush.DriverBuffer.DrvFlush: while the server is in this loop nothing else comes to the driver but the one request that a queued exchange waits for; mapping and locking memory always succeed.
- MbrWalk.GetPartitionInfoIndirectEx: looks at a bounded number of extended records behind each container and says when that was not enough. A walk that ends does so within the number that `MbrStops.WalkEndsExactly` gives, and then more records change nothing (`MbrStops.OutcomeSettles`). The count of partitions, a signed C integer, is taken to wrap at 32 bits; sectors are at least 512 bytes, as the table's place demands.
- MbrWalk.WalkChain: looks at a bounded number of records, likewise.
- MbrBuild.BuildMBR: the boot code is that of the build without the GPL part, and a geometry whose products are zero is not given, since the code divides by them.
- Volume boot record geometry, partition type names, and the file and device wrappers around the walker.
- Graphical and command-line front ends, registry, mount points, services and shell notification: foreign calls with little logic.
- cplcore/ repeats cpl/ and is not modelled again; sys/, svc/ and the C++ helpers in inc/ are not part of this model.
