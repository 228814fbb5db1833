# Verified models of the tdt drivers, mkfs.jffs2 and enigma2 timers

This project models five parts of the repository and proves what they are relied on for. Each part is modelled in
the form its source has: objects whose fields the source updates are classes, buffers it fills are arrays, loops are
loops, and each of them is proved against a specification function or predicate about which the properties are
then proved as lemmas.

**The log-structured inode tree** (`LogfsPaths`, `LogfsTree`, `LogfsHistory`, `LogfsDriver`, `LogfsSummary`). File
blocks are found through direct, single, double and triple indirect blocks (12 direct pointers, 256 pointers to a
block). An update builds what is missing of a branch, copies indirect blocks outside the current segment to the head
of the log, edits those inside it in place, and relinks up to the inode. The buffer cache is one mutable store from
block number to contents. The trees are *separated*: every indirect block has one parent slot in all the trees, and
everything they reach was handed out by the log. Separation is what makes editing in place safe, it is kept by every
update, and it gives the main theorem: after any run of writes, mixed with activity of other trees, each file block of
each inode reads as what was last written to it. A segment summary reads back as it was written, and holds every block
noted since its segment was re-assigned, over any run of a mount.

**JFFS2 compression** (`Rtime`, `CompressorRegistry`, `CompressPolicy`). The rtime encoder and decoder rebuild the
same table of last occurrences and copy runs that may overlap themselves; decoding undoes encoding. The registry is a
circular doubly linked list refining a sequence in order of priority; the policy picks a compressor by list order or
by output size, and what it returns reads back.

**Recording timers** (`TimerDays`, `TimerEntries`, `TimerQueue`). A list of live entries sorted by next activation, a
list of processed ones, and an activation pass that moves entries through four states and adds repeating ones again,
which starts further passes inside the pass. Whenever harmless answers keep coming, the pass is proved to end, to
leave nothing due, and to change entries by lawful steps only: a due one is activated, an ended one that repeats goes
on to its next day, one that is added is rescheduled, an ended one waits again after the time jumped back. Every
operation keeps the two lists a partition of the entries, the live one sorted, and the wake-up no later than the first
entry. Time is a real number of seconds, frozen during an operation and arbitrary between operations (it may jump
back); what the tuner and the conflict check answer is an arbitrary function, consulted once for each activation or extension.

**The PTI stream path** (`PtiPackets`, `PtiStream`, `PtiDemux`, `PtiInjector`, `PtiPids`). A DMA ring polled into a
semaphore-counted work queue, a demultiplexer that batches packets, the thread that runs one over the other, and a PID
table with swap-with-last removal that firmware reads at any moment. However arrivals and polls fall between the steps
of the thread, each demultiplexer has received exactly the payloads of its packets among those worked off, in order.

**The smart-card answer to reset** (`SmartcardAtr`), after section 8.2 of ISO/IEC 7816-3:2006: a chained
variable-length format, its parser and its printer, which are inverse to each other.

## What does not hold as it stands

Each of these is stated as a member, with the exact condition under which the code does what it is for.

- A due timer for which no service is found stays due, because nothing puts it off (RecordTimer.py:175-182): a pass
  gets past an entry exactly when the answer is not that, nor an extension to an end inside the current second
  (`TimerEntries.ProgressUnlessStalled`, `TimerEntries.NoServiceChangesNothing`). A timer that needs a service is
  never got past while none is found (`TimerQueue.NeverGetsPast`, `TimerQueue.Timer.StaysDue`); a pass ends whenever
  harmless answers keep coming, however many of the other kind are in between (`TimerQueue.Timer.ProcessActivation`).
- The search for a repeating timer's next day ends exactly when one of the seven weekday bits is set
  (`TimerDays.SearchEnds`). A day it has skipped to carries another `tm_isdst` than the present it is compared with,
  so there the very second of the present counts as passed (`TimerDays.StopsExactly`).
- The list of processed timers is not kept in order: an entry is filed by the key of the state it is in, and ended
  afterwards (timer.py:174-175). The list stays in order exactly when that key has the same place among the ends in it
  as the entry's own end (`TimerQueue.FiledInOrder`); two timers that leave it out of order are given
  (`TimerQueue.ProcessedOutOfOrder`).
- A segment summary need not fit its block, which the source assumes. What a run of calls leaves fits exactly when 7
  words, one for each inode block, four for each file and two for each call are at most 256
  (`LogfsSummary.RunFitsExactly`): 122 blocks of one file do, 123 do not (`LogfsSummary.SummaryOverflowsBlock`).
- Nothing counts the files of a segment (file.c:240-241). Its arrays are not overrun exactly when a run is about at
  most 64 files, each with at most 511 blocks in the segment (`LogfsSummary.AllFitExactly`); the 65th file is one too
  many (`LogfsSummary.SixtyFifthFile`). `LogfsSummary.RunOk` asks for that room.
- Where no compressor wins, the compression entry point reports the space it was given as the amount of data, which is
  no more than there was exactly when the space is no larger than the data (`CompressPolicy.Compress`,
  `CompressPolicy.HandBackTooMuch`).
- The poll counts the new packets exactly unless nothing is new and the DMA write pointer stands at the end of the
  buffer (`PtiStream.Stream.CountNew`). It then takes the whole ring for new and queues it again
  (`PtiStream.Stream.Poll`, `PtiStream.MisreadAtEnd`).
- When the firmware had to discard packets the poll resets the engine but neither queue nor semaphore. They fit the
  new stream exactly when nothing but empty items is queued (`PtiStream.Stream.Reset`); with a packet queued they do
  not (`PtiStream.StaleAfterReset`).
- Setting a PID keeps slots and table in step exactly when the slot has none and the PID is not the one that marks an
  empty slot; otherwise the table entry's owner is lost for good, in a full table always (`PtiPids.PtiTable.SetPid`,
  `PtiPids.OwnerLost`).
- The answer-to-reset parser takes the check byte as present by the last protocol named, the standard by any. The two
  agree exactly when a protocol other than 0 is not followed by a last one that is 0 (`SmartcardAtr.CheckByteRule`),
  as they do when protocols ascend (`SmartcardAtr.AscendingDoesNotDrop`); a buffer on which they do not is given
  (`SmartcardAtr.CheckByteMissedOutOfOrder`).

## Model

| member | source | states |
|---|---|---|
| LogfsPaths.BlockToPath | tdt/cvs/driver/logfs/tree.c:75-115 | A block number gets offsets if and only if it is in range; they are its path, and the boundary flag is set exactly when the next block has another parent |
| LogfsPaths.PathOf | tdt/cvs/driver/logfs/tree.c:86-108 | The path of a block is a valid path and leads back to its number |
| LogfsPaths.PathIs | tdt/cvs/driver/logfs/tree.c:86-108 | The pointers of each path, in numbers: a direct one below 12, then 12, 13 and 14 with one, two and three pointers below 256, the uppermost first |
| LogfsPaths.PathsAndBlocksBiject | tdt/cvs/driver/logfs/tree.c:86-108 | Every valid path is the path of an in-range block: with PathOf, a bijection between blocks and paths |
| LogfsPaths.DistinctBlocksDistinctPaths | tdt/cvs/driver/logfs/tree.c:86-108 | No two blocks share a path |
| LogfsPaths.PathsInOrder | tdt/cvs/driver/logfs/tree.c:86-108 | Paths come in the order of their blocks: at the first pointer in which two differ, the earlier block has the smaller |
| LogfsPaths.LastInParentMeansNextMoves | tdt/cvs/driver/logfs/tree.c:109-110 | The last pointer of a parent is exactly the one after which the parent changes |
| LogfsTree.GrowsTransitive | tdt/cvs/driver/logfs/segment.c:29-45 | Stretches of log activity that keep what was handed out compose |
| LogfsTree.MissingBelow | tdt/cvs/driver/logfs/tree.c:158-172 | Below a missing pointer everything is a hole |
| LogfsTree.SpliceMovesOnePath | tdt/cvs/driver/logfs/tree.c:327-362 | After a splice every pointer of every tree is as before, except those on the spliced path, which hold the new branch: at all depths, for missing, in-place and copied blocks |
| LogfsTree.StepOnPath | tdt/cvs/driver/logfs/tree.c:352-357 | In a relinked block the pointer on the path is the new one and its siblings are unchanged |
| LogfsTree.StepOffPath | tdt/cvs/driver/logfs/tree.c:352-359 | No node off the path is disturbed by the writes of a splice |
| LogfsTree.UntouchedNode | tdt/cvs/driver/logfs/tree.c:352-354 | An indirect block reached off the path is none of the blocks edited |
| LogfsTree.Place | tdt/cvs/driver/logfs/tree.c:341-360 | One more level, allocated, edited in place or copied up, extends a branch that is in order |
| LogfsTree.NotYetTouched | tdt/cvs/driver/logfs/tree.c:350-354 | A block that is about to be relinked still holds what it held before the update began |
| LogfsTree.SpliceKeepsSeparated | tdt/cvs/driver/logfs/tree.c:327-362 | An update keeps every indirect block in one slot of one tree, and everything reached behind the log head |
| LogfsTree.AfterNotShared | tdt/cvs/driver/logfs/tree.c:327-362 | No two slots come to share an indirect block, of the same or of different inodes |
| LogfsTree.AfterSettled | tdt/cvs/driver/logfs/tree.c:327-362 | Everything a tree reaches after an update was handed out by the log |
| LogfsHistory.WalkIs | tdt/cvs/driver/logfs/tree.c:158-172 | The walk to a file block spelled out for each depth: which word of which block holds the next block number, and nothing behind a missing block |
| LogfsHistory.GrowthMovesNoPointer | tdt/cvs/driver/logfs/segment.c:324-347 | Handing out blocks without linking them moves no pointer of any tree |
| LogfsHistory.GrowthKeepsSeparated | tdt/cvs/driver/logfs/segment.c:324-347 | Handing out blocks keeps the trees separated |
| LogfsHistory.GrowthDisturbsNoReader | tdt/cvs/driver/logfs/segment.c:324-347 | Handing out blocks changes what no reader sees |
| LogfsHistory.SpliceMovesOneFileBlock | tdt/cvs/driver/logfs/tree.c:311-365 | After an update the file block resolves to the new disk block and every other file block of every inode as before |
| LogfsHistory.SpliceIsWrite | tdt/cvs/driver/logfs/tree.c:311-365 | Pointing a file block at a data block makes it read as what that block holds, and nothing else read differently |
| LogfsHistory.FreshIsDataBlock | tdt/cvs/driver/logfs/segment.c:324-347 | A block just handed out is reached by no tree |
| LogfsHistory.EmptyInodesSeparated | tdt/cvs/driver/logfs/tree.c:275-295 | Inodes without pointers are separated and read as holes, so a run can start from them |
| LogfsHistory.RunReadsBackLastWrites | tdt/cvs/driver/logfs/tree.c:297-365 | Over any run of writes and other activity, every file block reads as what was last written to it |
| LogfsHistory.HandedOutBlocksIncrease | tdt/cvs/driver/logfs/tree.c:226-247 | Over any run of allocations, whatever is written, edited in place or appended between them, the block just handed out included, block numbers strictly increase and none is the first of a segment of 512, counted from block 4 |
| LogfsDriver.LogFs.Advance | tdt/cvs/driver/logfs/segment.c:34-44 | Hands out the head; at the last block of a segment the summary is stored in its first block and the next segment begins behind it, otherwise only the offset moves |
| LogfsDriver.LogFs.HandedOutInOrder | tdt/cvs/driver/logfs/segment.c:29-45 | Whatever operations ran, the blocks handed out since the mount strictly increase and none is the first of a segment of 512, counted from block 4 |
| LogfsDriver.LogFs.GetNextBlock | tdt/cvs/driver/logfs/segment.c:29-45 | Hands out the head of the log: not a summary block, in no use, everything handed out before kept; a roll-over, and nothing else, calls the accounting |
| LogfsDriver.LogFs.SegmentWriteBlock | tdt/cvs/driver/logfs/segment.c:324-347 | Appends a block: it is handed out and holds the data, also across a roll-over, which calls the accounting |
| LogfsDriver.LogFs.Account | tdt/cvs/driver/logfs/segment.c:199-212 | One call of the accounting takes all its steps in order, and disturbs nothing handed out to a file |
| LogfsDriver.LogFs.GetBranch | tdt/cvs/driver/logfs/tree.c:146-185 | Fills the chain with the blocks on the path up to and including the first missing one |
| LogfsDriver.LogFs.DiskBlock | tdt/cvs/driver/logfs/tree.c:275-295 | The disk block of a file block, 0 for a hole at any depth |
| LogfsDriver.LogFs.ReadFileBlock | tdt/cvs/driver/logfs/tree.c:297-308 | The contents of a file block, nothing for a hole |
| LogfsDriver.LogFs.NewNode | tdt/cvs/driver/logfs/tree.c:229-240 | The head of the log, used by nobody, zeroed but for one link; nothing handed out before changes, and the accounting is called for it |
| LogfsDriver.LogFs.AllocBranch | tdt/cvs/driver/logfs/tree.c:212-253 | Builds the missing lower part of a branch: one zeroed block a level with the one link, none of them used by anyone |
| LogfsDriver.LogFs.EditOrCopy | tdt/cvs/driver/logfs/tree.c:349-359 | A block of the current segment is edited in place, any other is also appended, and then accounted for; the block to link to holds the new contents, and no other block changes |
| LogfsDriver.LogFs.Relink | tdt/cvs/driver/logfs/tree.c:341-360 | Stores the link in the next block up, which stays where it is if the current segment holds it and goes to the head of the log otherwise |
| LogfsDriver.LogFs.UpdateBranch | tdt/cvs/driver/logfs/tree.c:333-361 | An update below an indirect slot is a complete splice ending in the given block |
| LogfsDriver.LogFs.UpdatePath | tdt/cvs/driver/logfs/tree.c:327-362 | A direct pointer is set in the inode, any other through its branch; both are complete splices |
| LogfsDriver.SpliceMeans | tdt/cvs/driver/logfs/tree.c:310-365 | A complete splice moves one file block, no other of any inode, and keeps the trees separated |
| LogfsDriver.LogFs.UpdateInode | tdt/cvs/driver/logfs/tree.c:310-365 | Succeeds if and only if the file block is in range; then that block of that inode resolves to the given one, every other as before, and the trees stay separated |
| LogfsDriver.LogFs.WriteFileBlock | tdt/cvs/driver/logfs/inode.c:323-325 | Appending a block and pointing a file block at it writes that file block, and nothing else reads differently; the block is the one that was at the head |
| LogfsDriver.LogFs.Run | tdt/cvs/driver/logfs/tree.c:310-365 | The driver over a whole run of writes and other activity: every file block of every inode reads as last written, and the trees end separated |
| LogfsSummary.EncodedSize | tdt/cvs/driver/logfs/segsum.c:28-59 | Words a summary takes: header, inode blocks, four for each file and two for each recorded block |
| LogfsSummary.SummaryOverflowsBlock | tdt/cvs/driver/logfs/segsum.c:27-59 | What a run over one file leaves fits the block exactly up to 122 calls; a segment takes more |
| LogfsSummary.AllFitExactly | tdt/cvs/driver/logfs/segsum.c:125-171 | A run of calls stays inside the arrays of the segment if and only if it is about at most 64 files and each has at most 511 blocks in it |
| LogfsSummary.SixtyFifthFile | tdt/cvs/driver/logfs/file.c:239-241 | Files with one block each stay inside the arrays up to the 64th, and not beyond |
| LogfsSummary.FinfoPrefix | tdt/cvs/driver/logfs/segsum.c:44-57 | The files of a summary are laid out one behind the other |
| LogfsSummary.WriteSegsum | tdt/cvs/driver/logfs/segsum.c:28-59 | Writes the encoded summary at the start of the block, the header in its seven words and the inode blocks behind it, and nothing behind the summary |
| LogfsSummary.HeaderWords | tdt/cvs/driver/logfs/include/lfs.h:89-99 | Which word of a summary block holds which field, and where the inode blocks are |
| LogfsSummary.FinfoWords | tdt/cvs/driver/logfs/include/lfs.h:48-59 | Which word of an entry holds which field, and where its two lists are |
| LogfsSummary.ReadSegsum | tdt/cvs/driver/logfs/segsum.c:103-122 | Reads back every summary that was written |
| LogfsSummary.ReadFinfo | tdt/cvs/driver/logfs/segsum.c:65-81 | Reads back one file entry and stands behind it |
| LogfsSummary.RecordKeepsEntries | tdt/cvs/driver/logfs/segsum.c:139-165 | Recording a block keeps one entry for each file |
| LogfsSummary.RecordIs | tdt/cvs/driver/logfs/segsum.c:139-165 | A file that has an entry gets the pair at the end of it, its version and last length kept; one that has none gets a last entry of version 1 with just the pair |
| LogfsSummary.RecordAddsOnePair | tdt/cvs/driver/logfs/segsum.c:139-165 | Recording a block adds one pair to its file and leaves every other file as it was |
| LogfsSummary.RunRecordsEveryCall | tdt/cvs/driver/logfs/segsum.c:125-171 | Over any run each file has one entry holding exactly its calls, in order |
| LogfsSummary.RunCounts | tdt/cvs/driver/logfs/segsum.c:125-171 | Any run of calls leaves one pair for each call and one entry for each file it is about |
| LogfsSummary.RunFitsExactly | tdt/cvs/driver/logfs/segsum.c:27-59 | What any run of calls leaves fits the block if and only if header, inode blocks, four words for each file and two for each call do |
| LogfsSummary.SegmentInfo.AddInob | tdt/cvs/driver/logfs/segsum.c:173-183 | An inode block is listed once, at its first mention |
| LogfsSummary.Mount.Reassign | tdt/cvs/driver/logfs/segment.c:161-186 | A segment that is re-assigned starts with an empty summary, and the remembered entry is not mistaken for one of it |
| LogfsSummary.Mount.Locate | tdt/cvs/driver/logfs/segsum.c:133-144 | The remembered entry, when it is used, is the one the search would find |
| LogfsSummary.Mount.UpdateFinfo | tdt/cvs/driver/logfs/segsum.c:125-171 | With or without the remembered entry, the entries change as by plain search |
| LogfsSummary.Mount.Take | tdt/cvs/driver/logfs/segsum.c:125-171 | One step of a mount, a re-assignment or a call, does to its own segment what plain search would and nothing to any other |
| LogfsSummary.Mount.Run | tdt/cvs/driver/logfs/segsum.c:125-171 | Over any run of re-assignments and calls, each segment ends with what plain search records for the calls since it was last re-assigned |
| Rtime.MatchLenIsLongest | tdt/cvs/hostapps/mkfs.jffs2/compr_rtime.c:49-53 | The run found matches, and could not be longer |
| Rtime.MatchLen | tdt/cvs/hostapps/mkfs.jffs2/compr_rtime.c:49-53 | The run stays inside the data and below its limit |
| Rtime.EncodeFrom | tdt/cvs/hostapps/mkfs.jffs2/compr_rtime.c:38-55 | Encoding fits its room, comes in pairs, and covers a prefix of the data |
| Rtime.CopyRunOfMatch | tdt/cvs/hostapps/mkfs.jffs2/compr_rtime.c:90-94 | Copying a matching run byte by byte rebuilds the data, also where source and target overlap |
| Rtime.DecodeOfEncodeFrom | tdt/cvs/hostapps/mkfs.jffs2/compr_rtime.c:38-100 | From any common state of the two tables, decoding what was encoded rebuilds the data read |
| Rtime.RoundTrip | tdt/cvs/hostapps/mkfs.jffs2/compr_rtime.c:29-102 | Decoding undoes encoding, for all data and any room |
| Rtime.DecodeOneMore | tdt/cvs/hostapps/mkfs.jffs2/compr_rtime.c:79-99 | The format without a table: one more pair appends its literal, and then as many bytes as it says from where the output went on behind the last occurrence of that literal as a literal |
| Rtime.RunWithoutOverlap | tdt/cvs/hostapps/mkfs.jffs2/compr_rtime.c:95-98 | Where the run does not overlap its target, copying it at once gives the same as copying byte by byte |
| Rtime.RunIsPeriodic | tdt/cvs/hostapps/mkfs.jffs2/compr_rtime.c:90-94 | A self-overlapping run repeats its first period |
| Rtime.RunLength | tdt/cvs/hostapps/mkfs.jffs2/compr_rtime.c:49-53 | The inner loop finds the longest run |
| Rtime.EmitPair | tdt/cvs/hostapps/mkfs.jffs2/compr_rtime.c:42-54 | One pair: the byte and the run behind it, and the table knows the byte |
| Rtime.EmitPairs | tdt/cvs/hostapps/mkfs.jffs2/compr_rtime.c:38-55 | The encoder loop in the output buffer is the encoding |
| Rtime.Compress | tdt/cvs/hostapps/mkfs.jffs2/compr_rtime.c:29-66 | Fails exactly when the encoding is no shorter than what it covers; otherwise the output decodes to the reported prefix; either way nothing is written behind the room given |
| Rtime.Repeat | tdt/cvs/hostapps/mkfs.jffs2/compr_rtime.c:91-94 | The overlapping byte loop copies the run |
| Rtime.ExpandPair | tdt/cvs/hostapps/mkfs.jffs2/compr_rtime.c:83-99 | Expands one pair in place, by either branch |
| Rtime.Decompress | tdt/cvs/hostapps/mkfs.jffs2/compr_rtime.c:69-102 | Decoding up to the reported length yields exactly the decoded bytes, takes exactly the pairs, and writes nothing behind |
| CompressorRegistry.Slot | tdt/cvs/hostapps/mkfs.jffs2/compr.c:320-325 | The place for a priority: behind everyone of the same or a higher one |
| CompressorRegistry.SlotKeepsOrder | tdt/cvs/hostapps/mkfs.jffs2/compr.c:320-326 | Inserting there keeps the list in non-increasing priority, behind all equals |
| CompressorRegistry.WithoutKeepsOrder | tdt/cvs/hostapps/mkfs.jffs2/compr.c:54-59 | Removing one keeps the order |
| CompressorRegistry.MoveIsPermutation | tdt/cvs/hostapps/mkfs.jffs2/compr.c:457-464 | Taking one out and putting it back is a permutation |
| CompressorRegistry.InsertAddsOne | tdt/cvs/hostapps/mkfs.jffs2/compr.c:320-326 | An insertion adds exactly the newcomer |
| CompressorRegistry.WithoutTakesOne | tdt/cvs/hostapps/mkfs.jffs2/compr.c:54-59 | A removal takes exactly the one that leaves |
| CompressorRegistry.AddKeepsLinks | tdt/cvs/hostapps/mkfs.jffs2/compr.c:28-36 | Linking in keeps next and prev inverse all around |
| CompressorRegistry.DelKeepsLinks | tdt/cvs/hostapps/mkfs.jffs2/compr.c:48-59 | Unlinking keeps next and prev inverse all around |
| CompressorRegistry.LinkBetween | tdt/cvs/hostapps/mkfs.jffs2/compr.c:28-36 | The four pointer writes of an insertion |
| CompressorRegistry.Detach | tdt/cvs/hostapps/mkfs.jffs2/compr.c:48-59 | The neighbours point at each other and the entry nowhere |
| CompressorRegistry.Registry.ListAdd | tdt/cvs/hostapps/mkfs.jffs2/compr.c:28-46 | Inserts behind a member of the circle |
| CompressorRegistry.Registry.ListDel | tdt/cvs/hostapps/mkfs.jffs2/compr.c:48-59 | Removes one member of the circle |
| CompressorRegistry.Registry.FindSlot | tdt/cvs/hostapps/mkfs.jffs2/compr.c:320-326 | The walk stops at the place for the priority |
| CompressorRegistry.Registry.InsertByPriority | tdt/cvs/hostapps/mkfs.jffs2/compr.c:320-326 | The sequence gets the newcomer at the place for its priority |
| CompressorRegistry.Registry.Register | tdt/cvs/hostapps/mkfs.jffs2/compr.c:304-329 | Refuses a compressor without a name; otherwise lists it behind its equals, unused and without a buffer: the listed ones are those before and it |
| CompressorRegistry.Registry.Unregister | tdt/cvs/hostapps/mkfs.jffs2/compr.c:331-341 | Refuses a compressor in use; otherwise the list lacks exactly it, and is otherwise those before |
| CompressorRegistry.Registry.FindNamed | tdt/cvs/hostapps/mkfs.jffs2/compr.c:444-450 | Finds the first compressor of the name |
| CompressorRegistry.Registry.Reprioritise | tdt/cvs/hostapps/mkfs.jffs2/compr.c:446-465 | The compressor moves to the place for its new priority among the others |
| CompressorRegistry.Registry.SetPriority | tdt/cvs/hostapps/mkfs.jffs2/compr.c:441-466 | The first compressor of the name moves to the place for its new priority and the list stays a permutation of itself; without one, nothing changes and 1 is returned |
| CompressPolicy.RtimeIsHonest | tdt/cvs/hostapps/mkfs.jffs2/compr_rtime.c:29-102 | rtime gives the policy what it expects of a compressor: output that fits and reads back |
| CompressPolicy.RunRtime | tdt/cvs/hostapps/mkfs.jffs2/compr_rtime.c:105-112 | The rtime compressor of the policy is the rtime codec: it fails and packs as running the codec does |
| CompressPolicy.FirstPacking | tdt/cvs/hostapps/mkfs.jffs2/compr.c:208-231 | The first compressor in list order that is not disabled, has a compress function and succeeds; every earlier one is disabled, has none, or fails |
| CompressPolicy.ByPriority | tdt/cvs/hostapps/mkfs.jffs2/compr.c:200-233 | Priority mode uses that compressor, and its output |
| CompressPolicy.BestIsSmallest | tdt/cvs/hostapps/mkfs.jffs2/compr.c:265-273 | The chosen output is no longer than any other and strictly shorter than any earlier one |
| CompressPolicy.TryOne | tdt/cvs/hostapps/mkfs.jffs2/compr.c:241-264 | One compressor in size mode: takes part exactly when it has or gets a large enough buffer, and packs into it |
| CompressPolicy.SmallestSoFar | tdt/cvs/hostapps/mkfs.jffs2/compr.c:237-274 | The loop keeps the smallest output so far, ties to the earliest |
| CompressPolicy.BySize | tdt/cvs/hostapps/mkfs.jffs2/compr.c:234-286 | Size mode uses a smallest output of those that take part; the input is not written; the output is taken away from its compressor |
| CompressPolicy.WinnerIs | tdt/cvs/hostapps/mkfs.jffs2/compr.c:197-289 | Mode by mode, who wins: never a disabled one; in priority mode, given memory, the first that packs; in size mode the first of those with the shortest output among the ones with room for it; in other modes nobody |
| CompressPolicy.WinnerReadsBack | tdt/cvs/hostapps/mkfs.jffs2/compr.c:187-301 | What the winner returns fits and decodes, by its type, to the input covered |
| CompressPolicy.Choose | tdt/cvs/hostapps/mkfs.jffs2/compr.c:197-289 | Each mode chooses its winner, or nobody |
| CompressPolicy.Compress | tdt/cvs/hostapps/mkfs.jffs2/compr.c:187-301 | A type other than 0 is that of a listed compressor that is not disabled and packs the data as returned: in priority mode every earlier one is disabled, has no compress function or fails, in size mode no enabled one with room gives a shorter output or an earlier one an equal one, in other modes there is none. The returned buffer, decoded by the returned type, gives the reported prefix of the input; the amount reported is no more than the input exactly when there is such a compressor or the space is no larger than the input. No compressor keeps the buffer that is returned |
| CompressPolicy.HandBackTooMuch | tdt/cvs/hostapps/mkfs.jffs2/compr.c:187-301 | In the mode that runs no compressor, with more space than data, the amount reported is more than the input |
| TimerDays.NoDaySelected | tdt/cvs/apps/enigma2-nightly/timer.py:67-75 | No weekday is selected exactly when the flags are a multiple of 128 |
| TimerDays.WeekDayAfter | tdt/cvs/apps/enigma2-nightly/timer.py:43-48 | A day later is the next weekday |
| TimerDays.WeekDayIs | tdt/cvs/apps/enigma2-nightly/timer.py:79 | Which day is which: the seven days from any fifth of January 1970 plus whole weeks are Monday to Sunday, numbered 0 to 6 |
| TimerDays.StopsExactly | tdt/cvs/apps/enigma2-nightly/timer.py:79-82 | When exactly the search stops: a selected weekday, not before the first, not over; strictly later once a day was skipped |
| TimerDays.SuitsUnlessRejected | tdt/cvs/apps/enigma2-nightly/timer.py:79-82 | The loop rejects exactly the days that do not suit, said in seconds: on a weekday whose bit is set, not before the first day, not over, one skipped to being over in its very second |
| TimerDays.SearchEnds | tdt/cvs/apps/enigma2-nightly/timer.py:67-82 | The search ends exactly when some weekday is selected |
| TimerEntries.DayList | tdt/cvs/apps/enigma2-nightly/timer.py:67-75 | The list of days marks exactly the selected ones |
| TimerEntries.Entry.ProcessRepeated | tdt/cvs/apps/enigma2-nightly/timer.py:51-96 | Begin and end move by the same number of days, to the first day that suits; no earlier one does |
| TimerEntries.RescheduledMeans | tdt/cvs/apps/enigma2-nightly/timer.py:51-96 | The result lies on a day, counted in weeks from Monday 1970-01-05, whose bit is set, not before the first day, ends no earlier than the next second, and keeps its length (one second where it had none) |
| TimerEntries.MovedToFirst | tdt/cvs/apps/enigma2-nightly/timer.py:79-96 | The timer has moved by whole days to the first that suits |
| TimerEntries.Entry.TimeChanged | tdt/cvs/apps/enigma2-nightly/RecordTimer.py:361-367 | Preparation starts 20 seconds before the begin, without back-off |
| TimerEntries.Entry.ResetState | tdt/cvs/apps/enigma2-nightly/timer.py:27-31 | A waiting state, not cancelled |
| TimerEntries.Entry.Abort | tdt/cvs/apps/enigma2-nightly/timer.py:113-121 | Ends now, and begins no later |
| TimerEntries.BackedOff | tdt/cvs/apps/enigma2-nightly/RecordTimer.py:215-222 | The wait after a failure: 5 seconds, then twice the last one, at most 100 |
| TimerEntries.WaitsAre | tdt/cvs/apps/enigma2-nightly/RecordTimer.py:215-222 | Failing on and on, a timer waits 5, 10, 20, 40 and 80 seconds, and 100 from then on |
| TimerEntries.Entry.TryPrepare | tdt/cvs/apps/enigma2-nightly/RecordTimer.py:166-213 | A failed preparation is put off, a missing service is not |
| TimerEntries.Entry.SetAutoincreaseEnd | tdt/cvs/apps/enigma2-nightly/RecordTimer.py:312-332 | Extends only auto-increased timers, to an end after now |
| TimerEntries.Entry.Activate | tdt/cvs/apps/enigma2-nightly/RecordTimer.py:224-310 | The whole effect of an activation on an entry, by state and answer; which refusals leave a due entry due |
| TimerEntries.Entry.Advance | tdt/cvs/apps/enigma2-nightly/RecordTimer.py:459-469 | A waiting entry that is over is ended without activating it; any other is activated and moves one state on exactly if the answer for its state accepts it and does not extend it |
| TimerEntries.ProgressUnlessStalled | tdt/cvs/apps/enigma2-nightly/RecordTimer.py:166-310 | A step gets past a due entry if and only if the answer is not a missing service, nor an extension within the current second |
| TimerEntries.NoServiceChangesNothing | tdt/cvs/apps/enigma2-nightly/RecordTimer.py:166-182 | A due waiting timer, activated any number of times without a service, is left exactly as it was |
| TimerEntries.Entry.Restart | tdt/cvs/apps/enigma2-nightly/RecordTimer.py:479-481 | An ended repeating timer waits for its next day |
| TimerEntries.Entry.Stop | tdt/cvs/apps/enigma2-nightly/RecordTimer.py:731-737 | After it, the entry ends without starting whatever is done with it |
| TimerQueue.Insort | tdt/cvs/apps/enigma2-nightly/timer.py:174-177 | In a sorted list, right of everything due no later and left of everything due later |
| TimerQueue.FiledInOrder | tdt/cvs/apps/enigma2-nightly/timer.py:174-175 | A processed list in order of end stays in order if and only if, among the ends already there, the key an entry is filed by has the same place as its end |
| TimerQueue.ProcessedOutOfOrder | tdt/cvs/apps/enigma2-nightly/timer.py:163-177 | Two timers recorded on a new scheduler, one over and one disabled, leave the processed list out of order |
| TimerQueue.StepsDown | tdt/cvs/apps/enigma2-nightly/timer.py:276-282 | Why a pass ends: a step catches a repeating timer up, or raises an entry to a higher state, or leaves one entry less due, unless the entry stalls, and then nothing is lost |
| TimerQueue.StepsOn | tdt/cvs/apps/enigma2-nightly/timer.py:276-282 | Lawful steps of a pass followed by those of another are lawful steps |
| TimerQueue.LawfulOnTime | tdt/cvs/apps/enigma2-nightly/RecordTimer.py:459-486 | No single step of a pass starts a timer that does not repeat before its begin |
| TimerQueue.NoneStartsEarly | tdt/cvs/apps/enigma2-nightly/RecordTimer.py:459-486 | No pass, however it nests, starts such a timer before its begin, whatever the tuner answers |
| TimerQueue.NeverGetsPast | tdt/cvs/apps/enigma2-nightly/RecordTimer.py:175-182 | If no service is ever found, no sequence of lawful steps, of a pass or of passes within it, changes a waiting timer that needs one |
| TimerQueue.RestartCarries | tdt/cvs/apps/enigma2-nightly/RecordTimer.py:479-482 | Re-adding a repeating timer leaves one fewer behind the present, which bounds the nesting of passes |
| TimerQueue.CarriedTwice | tdt/cvs/apps/enigma2-nightly/timer.py:209-219 | What one pass keeps of the entries, lawful steps only among it, a pass within a pass keeps too |
| TimerQueue.ReconsideredOnce | tdt/cvs/apps/enigma2-nightly/timer.py:210-217 | What a jump of the time does to a processed timer that does not repeat: it waits from a fresh state, 20 seconds to prepare, unless it is over or disabled, and then it has ended |
| TimerQueue.Timer.InsertLive | tdt/cvs/apps/enigma2-nightly/RecordTimer.py:474-476 | A live entry goes to its place in the sorted list |
| TimerQueue.Timer.InsertProcessed | tdt/cvs/apps/enigma2-nightly/timer.py:174-175 | An entry is filed into the processed list by the key it has before it is ended, and then ended |
| TimerQueue.Timer.Enqueue | tdt/cvs/apps/enigma2-nightly/timer.py:163-177 | An entry is rescheduled and then ended or listed live, exactly by its state, its end and whether it is disabled; the live list stays sorted, the processed one gets the entry at the place of its key |
| TimerQueue.Timer.AddTimerEntry | tdt/cvs/apps/enigma2-nightly/timer.py:163-179 | As Enqueue; if it goes live, a pass starts from the scheduler with the entry at its place, or, after a jump of the time, with the processed ones reconsidered, nothing is due at its end and the wake-up is set |
| TimerQueue.Timer.TakeNext | tdt/cvs/apps/enigma2-nightly/RecordTimer.py:459-471 | The first due entry is activated while it is still listed, and taken out; it has moved on unless it stalled |
| TimerQueue.Timer.StaysDue | tdt/cvs/apps/enigma2-nightly/timer.py:276-282 | A scheduler with such a timer: after any number of rounds of the loop it is the first due entry as before, with one answer spent a round |
| TimerQueue.Timer.TakeDue | tdt/cvs/apps/enigma2-nightly/RecordTimer.py:459-471 | Taking the first due entry out is a lawful step; if it stalled, an answer that is not harmless was spent |
| TimerQueue.Timer.DoActivate | tdt/cvs/apps/enigma2-nightly/RecordTimer.py:459-486 | One due entry moves on, or stalls at the cost of an answer that is not harmless: it goes back to its place in the live list, into the processed list, or, if it repeats, to its next day with a further pass |
| TimerQueue.Timer.StartOver | tdt/cvs/apps/enigma2-nightly/RecordTimer.py:479-482 | An ended timer that repeats is added again; the further pass leaves fewer repeating timers behind the present |
| TimerQueue.Timer.ActivateFirst | tdt/cvs/apps/enigma2-nightly/timer.py:281-282 | One round of the pass counts down, or brings the next harmless answer nearer |
| TimerQueue.Timer.ProcessActivation | tdt/cvs/apps/enigma2-nightly/timer.py:276-282 | A pass with all its nested passes ends, whenever harmless answers keep coming, and nothing is due before the next second: no waiting entry by its preparation, no prepared one by its begin, no running one by its end. What it does to the entries is a sequence of lawful steps, entries that were not due are untouched, and unless the time jumped back an entry that has ended for good stays as it is |
| TimerQueue.Timer.ReevaluateProcessed | tdt/cvs/apps/enigma2-nightly/timer.py:210-217 | After the time jumped back every processed entry was reset and added once: one that does not repeat waits afresh or has ended, exactly by its end and whether it is disabled, one that repeats is also rescheduled; it is live exactly in the first case, and all other entries are as before |
| TimerQueue.Timer.Reevaluate | tdt/cvs/apps/enigma2-nightly/timer.py:216-217 | One processed entry is reset and added again, and no other changes |
| TimerQueue.Timer.StartPass | tdt/cvs/apps/enigma2-nightly/timer.py:210-217 | The pass starts from where things stand, or, exactly when the last activation lies in the future, from the processed entries reconsidered |
| TimerQueue.Timer.CalcNextActivation | tdt/cvs/apps/enigma2-nightly/timer.py:209-232 | The pass starts from there; nothing is due any more, and the wake-up is the first entry's, or within the last of the next 100 seconds when that is sooner |
| TimerQueue.Timer.constructor | tdt/cvs/apps/enigma2-nightly/timer.py:145-154 | An empty scheduler, with its wake-up set |
| TimerQueue.Timer.Record | tdt/cvs/apps/enigma2-nightly/RecordTimer.py:646-664 | A new timer is in exactly one list, sorted and armed, where its state, its end and whether it is disabled put it; a pass starts from there if it is live; no other timer that was not due is touched |
| TimerQueue.Timer.TimeChanged | tdt/cvs/apps/enigma2-nightly/timer.py:234-245 | An entry changed in place, even out of order, is reset, taken out and listed again where it belongs, with a pass from there if it is live |
| TimerQueue.Timer.RunOut | tdt/cvs/apps/enigma2-nightly/timer.py:234-245 | A stopped entry, waiting, prepared or running, is driven into the processed list |
| TimerQueue.Timer.Finish | tdt/cvs/apps/enigma2-nightly/RecordTimer.py:731-740 | After the stop the entry is in the processed list, and no other timer that was not due is touched |
| TimerQueue.Timer.ExtendOne | tdt/cvs/apps/enigma2-nightly/RecordTimer.py:747-749 | A timer that gets more time is listed again and may start a pass; the removed one stays ended |
| TimerQueue.Timer.ExtendOthers | tdt/cvs/apps/enigma2-nightly/RecordTimer.py:745-749 | The loop ends although the list changes under it, and every turn extends, or not, the entry then at its position |
| TimerQueue.UntouchedBeside | tdt/cvs/apps/enigma2-nightly/RecordTimer.py:747-749 | Extending one timer leaves alone all that are neither due nor auto-increased |
| TimerQueue.Timer.RemoveEntry | tdt/cvs/apps/enigma2-nightly/RecordTimer.py:728-752 | From any state the entry ends in neither list; a timer that was neither due nor auto-increased is untouched, and unless the time jumped back so is one that has ended for good; the loop over the others looks at one position of the changing list after the other to the end |
| PtiPids.PtiWrite | tdt/cvs/driver/pti/pti_main.c:151-160 | Writes the lower or the upper half of a word, by the address, and leaves the other half and all other words alone |
| PtiPids.WithHalfKeepsOther | tdt/cvs/driver/pti/pti_main.c:153-159 | Replacing one half of a word keeps the other |
| PtiPids.VisibleIs | tdt/cvs/driver/pti/tc_code.h:53-60 | Where the firmware finds the count and each entry: which half of which word |
| PtiPids.RoomForOne | tdt/cvs/driver/pti/pti_main.c:948-990 | A slot without an index means the table has room |
| PtiPids.OwnedAfterSet | tdt/cvs/driver/pti/pti_main.c:966-978 | Appending a PID for a slot without one keeps slots and entries in bijection |
| PtiPids.OwnedAfterClear | tdt/cvs/driver/pti/pti_main.c:891-911 | Moving the last entry down keeps slots and entries in bijection, with distinct PIDs |
| PtiPids.SwapOutSees | tdt/cvs/driver/pti/pti_main.c:895-898 | Between and after the two writes of a removal every other PID is still seen |
| PtiPids.LostEntry | tdt/cvs/driver/pti/pti_main.c:963-979 | A slot that gets a second index leaves its old entry without an owner |
| PtiPids.PtiTable.GetNewSlotHandle | tdt/cvs/driver/pti/pti_main.c:992-1013 | The first slot not in use is taken, every earlier one being in use, or all are |
| PtiPids.PtiTable.SetPid | tdt/cvs/driver/pti/pti_main.c:948-990 | When it refuses, what it appends, that the firmware sees the old and then the new table, and exactly when the bijection survives; never when the table is full |
| PtiPids.OwnerLost | tdt/cvs/driver/pti/pti_main.c:948-990 | Setting a second PID on a fresh slot leaves two entries that no assignment of owners fits |
| PtiPids.PtiTable.ClearPid | tdt/cvs/driver/pti/pti_main.c:874-916 | The entry goes, the last takes its place and its slot follows; at every write all other PIDs are seen |
| PtiPids.PtiTable.Shrink | tdt/cvs/driver/pti/pti_main.c:895-898 | The two writes of a removal, and what is visible after each |
| PtiPids.PtiTable.Free | tdt/cvs/driver/pti/pti_main.c:918-934 | A freed slot owns nothing and its PID is gone from the table; no other slot is given back |
| PtiDemux.Injector.Collect | tdt/cvs/driver/pti/pti_main.c:457-466 | One packet without its header goes behind those collected for its tag |
| PtiDemux.Injector.Deliver | tdt/cvs/driver/pti/pti_main.c:467-480 | A batch hands over what was collected and starts anew |
| PtiPackets.TagIs | tdt/cvs/driver/pti/pti_main.c:398 | A first byte of two bits, a tag and two bits is read as that tag and no other |
| PtiPackets.Payload | tdt/cvs/driver/pti/pti_main.c:457-466 | The 188 bytes behind the six of the header |
| PtiDemux.FilteredOneMore | tdt/cvs/driver/pti/pti_main.c:398-466 | The filter of one packet more: the 188 bytes behind its header if bits 2 to 5 of its first byte are the tag, otherwise nothing more |
| PtiDemux.Injector.TakePacket | tdt/cvs/driver/pti/pti_main.c:390-483 | The 188 bytes behind the header join those of the demultiplexer that bits 2 to 5 of the first byte name, if there is one, and those of no other |
| PtiDemux.Injector.SortPackets | tdt/cvs/driver/pti/pti_main.c:390-483 | All packets of an item are sorted behind what was handed over before, in full batches so far |
| PtiDemux.Injector.Flush | tdt/cvs/driver/pti/pti_main.c:484-494 | Remainders are handed over, one short batch at most for each demultiplexer and item |
| PtiDemux.Injector.Process | tdt/cvs/driver/pti/pti_main.c:373-495 | Whatever went before, each demultiplexer gets the payloads of its packets of the item, in order, nothing lost or repeated; no batch exceeds 20, and only the last of an item may be short |
| PtiDemux.ReceivedOneMore | tdt/cvs/driver/pti/pti_main.c:473-493 | A batch adds to its own demultiplexer only |
| PtiStream.WrapTestIsExact | tdt/cvs/driver/pti/pti_main.c:549 | The masked comparison holds at the end of the buffer and at no other packet |
| PtiStream.CountIs | tdt/cvs/driver/pti/pti_main.c:551-581 | Pointer arithmetic counts packets, also across the end of the buffer |
| PtiStream.AlignedIs | tdt/cvs/driver/pti/pti_main.c:522 | The write pointer is moved back to the start of its packet |
| PtiStream.CoverOneMore | tdt/cvs/driver/pti/pti_main.c:579-597 | An item appended to a gapless list of items keeps it gapless |
| PtiStream.CoverIsForward | tdt/cvs/driver/pti/pti_main.c:349-351 | Items lead forward only |
| PtiStream.PlacesApart | tdt/cvs/driver/pti/pti_main.c:551-559 | Places in the ring tell how far two packets less than a ring apart are |
| PtiStream.Stream.Produce | tdt/cvs/driver/pti/pti_main.c:513-526 | The engine appends a packet without overwriting one that is not worked off |
| PtiStream.Stream.CountNew | tdt/cvs/driver/pti/pti_main.c:518-559 | Counts exactly the packets that arrived since the last poll, if and only if the pointers are not misread: nothing new and the write pointer at the end of the buffer |
| PtiStream.Stream.Push | tdt/cvs/driver/pti/pti_main.c:593-596 | One item queued, the semaphore raised |
| PtiStream.Stream.Enqueue | tdt/cvs/driver/pti/pti_main.c:579-598 | One item, or two where the new packets run over the end of the buffer |
| PtiStream.CoverNothing | tdt/cvs/driver/pti/pti_main.c:535-546 | Items stand for nothing exactly when they are all empty |
| PtiStream.Stream.Reset | tdt/cvs/driver/pti/pti_main.c:263-270 | Engine and pointers start over; queue and semaphore, which are left, fit the new stream exactly when only empty items are queued |
| PtiStream.Stream.QueueNew | tdt/cvs/driver/pti/pti_main.c:547-600 | The items that are queued are the stretch between read and write pointer, two where it runs over the end |
| PtiStream.Stream.Poll | tdt/cvs/driver/pti/pti_main.c:513-606 | Without discarded packets, queues exactly the new packets once the last read is acknowledged, and nothing before; queue, ring and semaphore stay in step, except that misread pointers queue the whole ring again. With discarded packets, starts over, and stays in step exactly when only empty items are queued |
| PtiStream.Stream.Down | tdt/cvs/driver/pti/pti_main.c:330-347 | The injector is never woken for an empty queue |
| PtiStream.Stream.Current | tdt/cvs/driver/pti/pti_main.c:349-361 | The item at hand lies inside the buffer and holds the next packets of the stream, unharmed |
| PtiStream.Stream.StaysInRing | tdt/cvs/driver/pti/pti_main.c:349-361 | Whatever arrives or is polled meanwhile, each packet of the item at hand is still in its place |
| PtiStream.Stream.Finish | tdt/cvs/driver/pti/pti_main.c:497-502 | The item is worked off and the next one follows without gap |
| PtiStream.MisreadAtEnd | tdt/cvs/driver/pti/pti_main.c:513-606 | The ring is filled, polled and worked off to its last packet; the next poll, with the write pointer at rest at the end of the buffer, queues the whole ring again |
| PtiStream.StaleAfterReset | tdt/cvs/driver/pti/pti_main.c:535-546 | A reset while a packet is queued leaves an item that stands for nothing in the new stream |
| PtiInjector.FilteredIs | tdt/cvs/driver/pti/pti_main.c:390-483 | Demultiplexing a stretch of the buffer is filtering the packets in it |
| PtiInjector.FilterOfOneMore | tdt/cvs/driver/pti/pti_main.c:398-466 | A packet adds the 188 bytes behind its header to the tag that bits 2 to 5 of its first byte name, and to no other |
| PtiInjector.Thread.Arrive | tdt/cvs/driver/pti/pti_main.c:513-526 | A packet that arrives at any moment of the thread disturbs neither what was worked off nor the item at hand |
| PtiInjector.Thread.Poll | tdt/cvs/driver/pti/pti_main.c:513-606 | Nor does a poll at any moment, unless the pointers are misread or the engine is reset over queued packets |
| PtiInjector.Thread.Wake | tdt/cvs/driver/pti/pti_main.c:334-361 | The thread takes over the item it was woken for, with empty buffers |
| PtiInjector.Thread.NextPacket | tdt/cvs/driver/pti/pti_main.c:390-420 | Where the thread looks for the next packet of its item, that packet of the stream still is |
| PtiInjector.Thread.SortOne | tdt/cvs/driver/pti/pti_main.c:390-483 | One packet more: what each demultiplexer has received, with what waits in its buffer, is the filter of all packets up to it |
| PtiInjector.Thread.HandOut | tdt/cvs/driver/pti/pti_main.c:484-494 | Nothing waits any more: what each demultiplexer has received is the filter of all packets up to the end of the item |
| PtiInjector.Thread.Finish | tdt/cvs/driver/pti/pti_main.c:497-502 | The item counts as worked off: each demultiplexer has received the filter of all packets worked off, also across resets |
| PtiInjector.Thread.WorkOff | tdt/cvs/driver/pti/pti_main.c:330-500 | The steps of the thread put together are a round: its item is worked off |
| SmartcardAtr.TableCountsBits | tdt/cvs/driver/smartcard/atr.c:102 | The table counts the interface bytes a level announces |
| SmartcardAtr.BitsAnnounce | tdt/cvs/driver/smartcard/atr.c:108-143 | The masks test bits 4 to 7, for TA, TB, TC and TD in this order |
| SmartcardAtr.InverseBits | tdt/cvs/driver/smartcard/atr.h:87-95 | Bit k of a decoded byte is the complement of bit 7 - k of the byte sent |
| SmartcardAtr.InverseIsInvolution | tdt/cvs/driver/smartcard/atr.h:87-95 | Reading a byte in inverse convention twice gives it back |
| SmartcardAtr.InverseBufferReadsAsDecoded | tdt/cvs/driver/smartcard/atr.c:75-84 | A buffer in inverse convention parses as its decoded bytes |
| SmartcardAtr.PrintOfLevels | tdt/cvs/driver/smartcard/atr.c:98-159 | The levels read print as the bytes they were read from |
| SmartcardAtr.LevelsChain | tdt/cvs/driver/smartcard/atr.c:98-159 | Each level has exactly the bytes its predecessor announces |
| SmartcardAtr.ChainIsMarked | tdt/cvs/driver/smartcard/atr.c:107-158 | In every level the four upper bits of T0 or of the TD before it, in numbers, say which bytes there are, only the last level is without TD, and the last TD names the last protocol |
| SmartcardAtr.PrintOfParsed | tdt/cvs/driver/smartcard/atr.c:65-201 | An accepted answer prints as exactly its first `length` bytes |
| SmartcardAtr.ParsedMeans | tdt/cvs/driver/smartcard/atr.c:65-201 | In an accepted answer the lower half of T0 counts the historical bytes, the levels are marked as above, and there is a check byte exactly if the lower half of the last TD is not 0 |
| SmartcardAtr.LevelsOfPrinted | tdt/cvs/driver/smartcard/atr.c:98-159 | Printed levels are read back, whatever follows |
| SmartcardAtr.ParseOfPrinted | tdt/cvs/driver/smartcard/atr.c:65-201 | The printed form of any consistent answer, with anything behind it, parses to that answer |
| SmartcardAtr.AcceptedExactly | tdt/cvs/driver/smartcard/atr.c:65-201 | A buffer is read as an answer if and only if the answer is consistent, allowed, and its printed form begins the buffer |
| SmartcardAtr.CheckByteRule | tdt/cvs/driver/smartcard/atr.c:143-152 | The parser expects a check byte by the standard's rule, that any protocol other than 0 asks for one, if and only if the protocols do not drop back to 0; it never expects one the rule does not ask for |
| SmartcardAtr.LastIsZero | tdt/cvs/driver/smartcard/atr.c:143-152 | The protocol the parser ends with is 0 exactly when the last TD names 0, or there is none |
| SmartcardAtr.AscendingDoesNotDrop | tdt/cvs/driver/smartcard/atr.c:143-152 | Protocols in the standard's ascending order never drop back |
| SmartcardAtr.CheckByteMissedOutOfOrder | tdt/cvs/driver/smartcard/atr.c:143-152 | A buffer that drops back, T=1 then T=0, is accepted and read without the check byte |
| SmartcardAtr.DecodeBuffer | tdt/cvs/driver/smartcard/atr.c:75-84 | The bytes as they were meant: each turned round if the first one is 3, otherwise as they are |
| SmartcardAtr.ReadLevel | tdt/cvs/driver/smartcard/atr.c:107-158 | Which of the four bytes are there, by bits 4 to 7 of the byte that announces them, where each is read, and where the level ends |
| SmartcardAtr.AtrRecord.ReadLevels | tdt/cvs/driver/smartcard/atr.c:98-162 | The loop reads all levels, or finds the buffer too short |
| SmartcardAtr.AtrRecord.CheckFirstLevel | tdt/cvs/driver/smartcard/atr.c:184-198 | A single level is refused exactly if the upper half of TA is 7, 8, 14 or 15 or TB is above 128 |
| SmartcardAtr.AtrRecord.InitFromArray | tdt/cvs/driver/smartcard/atr.c:65-201 | Accepts exactly the parseable buffers and fills the record with the answer: it prints as the first bytes of the buffer, and its levels, historical bytes and check byte are those that T0 and the TD bytes announce |
| SmartcardAtr.PutLevel | tdt/cvs/driver/smartcard/atr.c:431-441 | One level printed behind what is there |
| SmartcardAtr.AtrRecord.GetRaw | tdt/cvs/driver/smartcard/atr.c:420-456 | Prints the record: bytes and length, and nothing behind them |

## Left out

- Page cache, buffer locks, `i_meta_lock`, disk errors and `-EAGAIN`: the store is read and written by one thread and every read succeeds.
- LogfsDriver.LogFs.Account: usage accounting is any sequence of edits of the accounting's own blocks and of appends; what the table says about live bytes is not modelled, nor is the update of the usage inode's own tree.
- LogfsDriver.LogFs.Advance: a new segment keeps whatever its blocks held; that its pages hold unspecified data until written is not modelled, and neither is the end of the disk.
- Block numbers are unbounded; the 32-bit width of the pointers on disk is not modelled.
- Snapshots (`ioctl.c`), unaligned file writes, directory scans and the freeing of an inode's blocks: sharing gives up separation on purpose, and the rest would only add members that follow from a block read or write.
- LogfsSummary.Mount.constructor: one mount is modelled, starting without a remembered entry; the static variables of the source outlive an unmount.
- LogfsSummary.Mount.UpdateFinfo: a new entry's last length, which the source leaves as the allocator's zero, is 0. A 65th file in a segment, which the source writes behind its array, is excluded; `LogfsSummary.AllFitExactly` says when that happens.
- CompressPolicy.Compress: the use count raised around one call, the statistics and the optional re-reading of each output are not modelled. In the modes that run compressors the data must be below 32768 bytes and the space at least two, which rtime needs.
- Rtime.Compress: data of 32768 bytes and more overflow the source's table of shorts, and with less than two bytes of space its loop bound wraps around; both are excluded.
- Rtime.Decompress: the length to decode must be what whole pairs give, and below 32768, as for every length the encoder reports; for others the source writes behind its buffer.
- CompressPolicy.RtimeIsHonest: covers the rtime compressor; that zlib and lzo read back is the condition `Honest` placed on every registered compressor.
- SmartcardAtr.AtrRecord.InitFromArray: chains of more than 7 levels and buffers of more than 33 bytes are excluded, because the source's arrays end there; within them its test for too many levels never fires.
- SmartcardAtr.AtrRecord.GetRaw: the caller's buffer must be large enough, as in the source.
- PtiStream.Stream.Poll: the write pointer is taken to lie inside the packet being written, or at the end of the buffer when the last packet of the ring was just written; the counters kept for messages are left out.
- PtiInjector.Thread.WorkOff: arrivals and polls fall between the steps `Wake`, `SortOne`, `HandOut` and `Finish`, each of which is one step.
- PtiDemux.Injector.Process: the variant with one demultiplexer for each tag; the SPARK7162 variant maps the tag through a table first. Stream checks print messages only.
- PtiPids.PtiTable.SetPid: the slot array is a fixed array of records instead of pointers to them; session handles, which the source ignores, are left out.
- TimerDays.StopsExactly: local time is taken at a fixed offset from UTC, so the second day that `addOneDay` skips at a change to summer time does not occur; the range of years of a datetime is not modelled.
- TimerQueue.Timer.ProcessActivation: stated for answers among which harmless ones keep coming, because otherwise the loop of the source may go round forever; an answer is harmless that stalls none of the entries there are (a missing service stalls only timers that record, a short extension only auto-increased ones). The same goes for every operation that runs a pass; `TimerQueue.NeverGetsPast` says what answers without a service do.
- TimerQueue.Timer.Record: the conflict and duplicate check in front of it decides whether it is called at all, and an entry that is already listed is not added again; saving the list to a file is left out.
- TimerEntries.Entry.Activate: file names, notifications, zapping, stopping a service and shutting down are left out; the outcome of preparing and starting a service and the end the conflict check leaves are the answer it is given.
- The CEC driver and its message ring, ramzswap, the player, front-panel and AV-switch drivers, procfs tables and the enigma2 screens: hardware access, table lookups or user interface, with nothing of the kind proved here.
