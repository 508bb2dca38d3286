# alog in Dafny

A model of alog's storage engine, and proofs about it. alog is an append-only log kept in segment files:
appends rotate and reap segments under three limits, both ends can be truncated, a directory left by a
crash is loaded again, a sparse index makes seeks cheap, and a writer groups concurrent appends.

The central result is a refinement. The real state (segment files, two metadata slots per file, write and
read offsets, sparse indexes, the disk counter) behaves as a head number and a list of records, cut into
segments, over every run of operations (`Runs.Run`) and of operations and crashes (`Reboots.Endure`). The
limits and the lengths of payloads decide which batches are refused and which segments are given up
(`Traces.AnswerDecided`);
without a disk limit and a segment limit nothing is ever lost, and the log is the list that the operations
determine (`Traces.RunIsIdeal`). Crashes of the process cost what is stated below and no more. A directory
holds one chain at most (`Contents.OneContent`), so what a load finds is determined by it.

## How it is modelled

- `Bytes`, `Errors`: machine integers, big-endian encoding, error values. The checksum is an arbitrary
  function of bytes; every result holds whichever function it is.
- `Frames`, `Slots`, `Layout`: frames, the two metadata slots, and what a file must look like to hold a
  `View`, that is a base sequence number, the payloads of all frames, and how many of them are hidden.
- `Index`, `Segments`, `Scanners`, `Groups`: the sparse index, one segment, its reader, several segments.
- `Model`: the log as its users see it, and how a chain of views is read as one.
- `Disks`, `Directories`, `Recovery`, `Mixes`, `Crashes`: a directory as a map from names to bytes. Every operation
  on it may fail, unless the disk is marked reliable; on a reliable disk operations are proved to succeed,
  except for the refusals stated. The directory records each state a crash could leave behind: a write may
  stop after any byte, and a metadata slot caught half written is the old one, the new one, or not valid.
  Operations reach storage in program order.
- `Retention`, `Contents`, `Surveys`, `Loading`, `Chains`: the limits, what a directory stands for, what a run over
  its files comes to, loading, and the chain of segments.
- `Reading`, `Logs`, `Traces`, `Runs`, `Reboots`: the multi-segment scanner, the log with its consuming
  cursor, histories of a log, and drivers that run a log through any sequence of operations and crashes.
- `Writers`: the group-commit writer as a step machine driven by any sequence of events.

A chain is `Valid` when its segments stand for contiguous views and its disk counter is the sum of their
sizes. It is `Readable` when, besides, each of its files ends cleanly, and `Clean` when its directory also
holds nothing else. Record numbers below 2^64, frame indexes below 2^32 and file offsets below 2^63 are
preconditions of an append, stated once as `Retention.RoomFor`. With
`0 < maxSegmentSize <= 64 + 16 * (2^32 - 1)` the last two always hold. Otherwise, an unlimited segment size
included, runs and writers need room for what they are going to write (`Retention.Spacious`).

## What the proofs found

- A crash during an append makes a log unreadable in exactly three ways (`Runs.AppendAndCrash`): the header
  of a new segment was cut short, a frame header left over from before was overwritten in part and its mix
  with the new one is corrupt, or, in single-segment mode, the last frame is torn.
- A file shorter than a segment header is refused by every later load. For 1 to 63 bytes the source goes on
  with a nil segment (internal/segment/segment.go:96-98, internal/segment/chain.go:269-280); the model reports
  `NilSegment` at that point.
- A crash while the end is truncated may leave a gap, because later segments are removed oldest first.
  `Runs.CutAndCrash` states exactly when the directory can still be loaded.
- A tear right behind a 16-byte frame header looks like a clean end, so the header stays behind the last
  frame. Such a file is read correctly, except by a reader of headers only (`Scanners.ReadAtEnd`). The
  next append overwrites that header in place. If it stops inside it, the mixed header decides
  (`Mixes.MixedLoads`): with a nonzero length the old records load; with length zero the checksum tells
  whether the file holds one more, empty record or is refused as corrupt. An empty payload, appended over
  the header of a longer one and stopped after eight bytes, is refused (`Mixes.EightBytesSpoil`).
- With `maxSegments` 1 a torn tail is refused, although the single segment is always trimmed when it loads
  (internal/segment/chain.go:178-215). A crash during an append is survived exactly when it stops between
  frames or right behind a frame header (`Runs.TornAppend`).
- `Consume` can forget records it never delivered. `Traces.ConsumeLosesNothing` says exactly when it does
  not. Truncating the end below the head is one way to get there, since it leaves the cursor where it was
  (`Traces.CursorAfterCut`, `Traces.RestartHidesRecords`).
- An append can fail as full after it has given up old segments; only a batch that is too large for an
  empty segment is refused without loss (`Chains.Chain.Append`).
- Two clamps of the read start behind the write position are never taken
  (internal/segment/segment.go:309-335, internal/segment/chain.go:577-581).
- docs/design/storage.md:132 says that a writer syncs a batch before it acknowledges it; the writer does
  not (pkg/log/write/writer.go:166-191). The model follows the code and claims no durability.

## Model

| member | source | states |
|---|---|---|
| Runs.Run | internal/segment/chain.go:126-584 | any sequence of appends, truncations at both ends, consumption and reloads, until storage fails, which a reliable disk never does: the log stays clean and within its limits, and every operation takes the step that its arguments, the segments and the limits prescribe: which segments are given up, whether the batch is written and where, which records are delivered, and where the cursor goes |
| Runs.FromScratch | internal/segment/chain.go:303-316 | a log created in an empty directory on a disk that does not fail goes through any sequence of operations by such steps, from a single empty segment at the start sequence; a segment size limit is not needed |
| Traces.AnswerDecided | internal/segment/chain.go:341-412 | at any point of any history on a disk that does not fail, an append succeeds if and only if its batch is empty, or admissible with every payload below 2^32 bytes; an admissible batch costs the least number of segments that makes room, one too large for any segment costs nothing, and any other one leaves the last segment only; in a chain within its limits a batch is admissible if and only if, for some number of oldest segments, what is left can take it in the last segment or in a new one with the limits on total size, segment size and count all kept; the number of segments it costs is the least such one, and it goes to the last segment if that can take it |
| Traces.RefusalDecided | internal/segment/chain.go:348-380 | why and at what cost an append is refused, at any point of a history on a disk that does not fail and within the limits: a batch larger than a segment may be is refused as a full segment at no cost; one for which there is room is refused for a payload only; any other one has cost all segments but the last, and is refused for the disk limit if and only if that segment with the batch would be larger than the limit |
| Traces.AlwaysWithin | internal/segment/chain.go:341-584 | over any history of operations and crashes that starts within the three limits, each of which leaves room for a header, every state is within them |
| Traces.ShownToConsumer | pkg/log/log.go:158-191 | a call of `Consume`, finished or interrupted, shows exactly the retained records with a number at or above the asked one and the cursor, each once, in order, with its payload, up to the first one refused; a finished call moves the cursor behind the last record shown, or to it if that was refused, and then keeps exactly the records from the cursor on; a call that moves no cursor forgets nothing, and an interrupted one forgets none from the new cursor on |
| Traces.TruncatedRecords | pkg/log/log.go:238-245 | a truncation at the front leaves exactly the records numbered at or above the asked number and the next number as it was; one at the end leaves exactly those up to the asked number and the head as it was, or an empty log at the start sequence |
| Traces.CrashedTruncation | internal/segment/chain.go:433-584 | a crash in a truncation at the front leaves a suffix of the records with all from the asked number on; a crash at the end leaves a front with all up to the asked number, or, below the head, a suffix or a log started over |
| Traces.RunIsIdeal | pkg/log/log_fuzz_test.go:61-97 | without a disk limit and a segment limit, over any run on a disk that does not fail, records and cursor are those of a list computed from the operations alone, which appends every batch that fits an empty segment and its frames, and never loses a record by itself |
| Traces.AppendedRecords | internal/segment/chain.go:341-412 | an append forgets exactly the records of the segments it gave up, adds the whole batch or nothing, and answers with the number of its last record |
| Traces.CrashedRecords | internal/segment/chain.go:341-412 | a crash in an append forgets only records of segments that stood in the way of the batch, and adds a prefix of it, or one empty record where the history says so |
| Runs.Perform | pkg/log/log.go:142-245 | one operation of such a run: it takes a clean log within its limits to a clean log within its limits by a step of its kind, and leaves room for what is still to be written |
| Runs.Reopen | pkg/log/log.go:142-151 | loading the directory of a clean log again yields the same records, with the cursor at the head, or an I/O failure |
| Runs.TruncateAndCrash | internal/segment/chain.go:433-507 | from every state the directory goes through while the front is truncated, a new process recovers, within the limits, a suffix of the old records that holds all of them from the given number on |
| Runs.AppendAndCrash | internal/segment/chain.go:341-412 | from every state the directory goes through during an append, reaping, rotation and failures included, a new process recovers, within the limits, the old records less those of segments that stood in the way of the batch, plus the first records of the batch, or one empty record that a mixed frame header passes for; it fails exactly when a segment header was cut short, when a mixed frame header is corrupt, and, with a single segment, when the last frame is torn |
| Runs.RestartAndCrash | internal/segment/chain.go:527-553 | from every state the directory goes through while a log starts over below its head, a new process recovers the newest segments as they were, or an empty log at the start sequence; it fails only when the header of the new segment was cut short |
| Runs.ArchiveAppend | pkg/archive/archive.go:46-52 | with archive sizing and a disk that does not fail, a batch that fits an empty segment is written, unless a payload is too long for a frame, and at most one segment is given up for it; there are never more segments than the immutable ones and one, and one is given up only when there are that many |
| Runs.TornAppend | internal/segment/chain.go:257-327 | if an append stops after any number of bytes, the next process recovers exactly the committed records and the whole ones of the batch, and the process after it recovers the same without error; with a single segment it does so if and only if the cut is between frames or right behind a frame header |
| Runs.CutAndCrash | internal/segment/chain.go:556-584 | if truncating the end stops after removing some segments, the directory can be loaded exactly when no segment is left behind the gap or the gap held no record, and is refused as not contiguous otherwise |
| Runs.RecoverTwice | internal/segment/chain.go:126-338 | loading a directory that holds a chain, and then loading what that left, both yield this chain |
| Runs.Recover | internal/segment/chain.go:126-338 | a new process finds in a directory exactly the chain it holds; it refuses well-formed segments that leave gaps, a directory with a faulty file with what is wrong with the first one, and a torn frame in a file other than the last; a refused directory stays as it is |
| Reboots.Endure | internal/segment/chain.go:126-584 | a new log goes through any sequence of operations and of crashes, each after any number of directory changes of its operation, and of the loads after it, which may die as well: it keeps its limits and takes only steps of the operation or of its crash; each crash leaves a directory that its operation goes through; on a disk that does not fail the run stops at an act if and only if that directory cannot be loaded, in the cases of `Reboots.DieAppending` and `Reboots.DieAfter`; an accidental empty record appears only where a frame header dangled and the mix with it passes |
| Reboots.Suffer | pkg/log/log.go:142-245 | one operation, carried out or interrupted; the log that follows is clean, within its limits, and has room for what is still to be written; a crash finds the directory exactly as the changes it survived left it, and on a disk that does not fail there is a next log if and only if that directory can be loaded |
| Reboots.DieAppending | internal/segment/chain.go:341-412 | a process that dies in an append, after a given number of its directory changes, is followed by one whose log has the old records less needed reapings, and the first records of the batch or one accidental empty record; on a disk that does not fail, if and only if in the directory of that moment no segment header was cut short, no mixed frame header is corrupt, and, with a single segment, the last frame is not torn |
| Reboots.DieBefore | internal/segment/chain.go:433-507 | a process that dies while truncating the front is always followed by one with a suffix of the records that holds all from the number on |
| Reboots.DieConsuming | pkg/log/log.go:158-191 | a process that dies in `Consume` is always followed by one that still has every record behind the accepted ones |
| Reboots.DieAfter | internal/segment/chain.go:512-584 | a process that dies while truncating the end, after a given number of its directory changes, is followed by one with the records up to some number not below the asked one, or, below the head, with a suffix of the records or a log started over; on a disk that does not fail, if and only if no records were in a gap left by removed segments and, below the head, no header was cut short, by the truncation or by a load that found the directory empty |
| Reboots.Reboot | internal/segment/chain.go:126-338 | after any number of interrupted loads, a directory that holds a chain within the limits still loads as this chain, one that is refused is refused as before, and an empty one becomes a new log, unless the header of its first segment was cut short |
| Reboots.Relaunch | internal/segment/chain.go:126-338 | a new process that opens a directory gets the chain in it, or a new log if it is empty, and an error if the directory is one of those that are refused |
| Reboots.Interrupt | internal/segment/chain.go:303-337 | a load that stops after any number of directory changes leaves the same chain, leaves a refused directory untouched, and leaves an empty one empty, with a part of a header, or with the first segment |
| Reboots.NeverStuckAtOnce | internal/segment/chain.go:126-338 | a directory that nothing happened to yet can always be loaded |
| Reboots.NeverStuckInPlace | internal/segment/chain.go:404-411 | no directory that an append goes through is refused, if the batch starts no new segment, the last file ends with its last frame, and more than one segment is allowed |
| Reboots.GapRecords | internal/segment/chain.go:556-584 | what is left around a gap that can be loaded is the old log, or its front up to the end of the kept segment |
| Traces.NumbersIncrease | internal/segment/chain.go:341-412 | over any history of operations and crashes without a truncation of the end, all numbers of a later batch are above all numbers of an earlier one |
| Traces.NeverAgain | pkg/log/log.go:153-191 | over any such history, a record whose callback succeeded in a finished call of `Consume` is not delivered by any later call, finished or not |
| Traces.NothingSilentlyLost | pkg/log/log.go:142-191 | over any stretch of a history of operations and crashes, a retained record stays retained, with its payload, until its segment stands in the way of a batch, it is truncated on request, or a callback accepts it, so long as no call of `Consume` in that stretch starts beyond the cursor |
| Traces.ConsumeLosesNothing | pkg/log/log.go:158-191 | a call of `Consume` forgets only records whose callback succeeded if and only if it starts at the head, or has nothing to read, or its callback refuses the very record at the cursor |
| Traces.CursorAfterCut | internal/segment/chain.go:527-553 | truncating the end leaves the cursor ahead of the head if and only if the log starts over at a number below the cursor |
| Traces.RestartHidesRecords | internal/segment/chain.go:527-553 | a whole history of a new log in which a record appended after such a restart is forgotten without having been delivered |
| Traces.AcceptedForgotten | pkg/log/log.go:158-191 | the records a callback accepts are true records, consecutive from where the call starts, and the head moves behind the last of them unless the call is interrupted |
| Traces.StepForward | pkg/log/log.go:142-245 | an operation or a crash, other than in truncating the end, moves neither end of the log backwards, and keeps the cursor at or below the head |
| Logs.Log.Consume | pkg/log/log.go:158-191 | shows exactly the retained records with a number at or above the asked one and the cursor, each once, in order, with its payload, up to the first one refused; the cursor then stands behind the last record shown, or at it if that was refused; if it moved, exactly the records from it on are left, and if not, nothing is forgotten; every state of the directory on the way still holds all records that are left |
| Logs.Log.Forget | pkg/log/log.go:174-190 | moves the cursor and removes exactly the records below it |
| Logs.Log.Range | pkg/log/log.go:195-210 | shows exactly the retained records with start <= number, and number < end unless end is 0, each once, in order, with its payload, up to the first one the callback refuses; reports an error exactly then |
| Logs.DeliverExact | pkg/log/log.go:195-210 | what a callback sees is a prefix of the records in range, accepted in full except possibly the last one |
| Logs.ShownExactly | pkg/log/log.go:195-210 | the first accepted records of a range and the one refused after them are exactly what a callback must see |
| Logs.ConsumedExactly | pkg/log/log.go:158-191 | the number of the first record not accepted is where the cursor goes, or stays if nothing was accepted and it stands there, and what is below it is what is forgotten |
| Logs.PassAll | pkg/log/log.go:200-209 | the loop over a scanner delivers everything that is left in range, up to the first refused record |
| Logs.Log.Append | pkg/log/log.go:215-230 | the oldest records may be gone, the others keep their numbers, and the whole batch, or nothing of it, has the next ones; the result is the last of these; without disk failures it succeeds exactly when the batch is empty, or its payloads fit a frame and, in a chain within its limits, what is left without some of the oldest segments can take it in the last segment or in a new one with every limit kept; it goes to the last segment if that can take it; too large a batch is refused as a full segment at no loss |
| Logs.Log.TruncateBefore | pkg/log/log.go:238-240 | leaves exactly the records numbered at or above the given number, and the next number as it was |
| Logs.Log.TruncateAfter | pkg/log/log.go:243-245 | leaves exactly the records up to the given number, and the head as it was; below the head the log starts over at the start sequence; the cursor stays where it is |
| Logs.Log.Load | pkg/log/log.go:142-151 | after loading, the cursor is at the first record of the chain found, or at the start sequence of a new log; refused are gaps, too many segments, too many bytes, a torn single segment, a torn frame in a file other than the last, and any faulty file, with what is wrong with the first one: no bytes or too few for a header, other bytes than "ALOG" and version 1, two bad slots, a read start inside a frame, a frame with another index or with a wrong checksum; a refused directory stays as it is, except for the trimmed tail of one that is too large |
| Logs.Log.SequencesKnown | pkg/log/log.go:111-138 | `FirstSequence` and `LastSequence` are the numbers of the first and last retained record, and report none exactly when the log is empty |
| Logs.Log.HeadKnown | pkg/log/log.go:101-108 | `Head` is the number of the first retained record, without wrapping |
| Reading.WindowExact | pkg/log/scan.go:75-122 | the records in a range are those retained with a number in it, each once, in order |
| Reading.LogScanner.Next | pkg/log/scan.go:75-122 | yields the record the scanner stands before, with its own number and payload clipped to the limit, across segment boundaries and emptied heads; stops exactly at the end of the log or at the bound; a failed scanner stays failed |
| Reading.LogScanner.Seek | pkg/log/scan.go:127-149 | stands before the asked record, or before the first one when that is gone, or behind the last one |
| Reading.LogScanner.ReadOne | pkg/log/scan.go:92-119 | a segment scanner yields record base + index of the whole log, and runs out exactly at the end of its segment |
| Reading.LogScanner.constructor | pkg/log/scan.go:50-62 | a new scanner stands before the first record |
| Chains.Chain.Append | internal/segment/chain.go:341-412 | gives up the least number of oldest segments that makes room, never the last one; writes the whole batch to the last segment or to a new one, and returns the number of its last record; without disk failures it succeeds exactly when the batch is admissible and its payloads fit a frame; on every path, failures included, the disk counter is the sum of the segment sizes, all limits are kept, and the records are the old ones less the reaped ones; in a chain within its limits a batch is admissible exactly when what is left without some of the oldest segments can take it, in the last segment or in a new one, with every limit kept |
| Chains.Chain.MakeRoom | internal/segment/chain.go:356-388 | reaping ends with the least number of segments gone that admits the batch, or with the last segment alone still over a limit; it says which |
| Chains.Chain.Pressure | internal/segment/chain.go:353-368 | a batch starts a new segment exactly when the last one would outgrow its limit with it; the byte limit and the count limit stand against it exactly when the segments with the batch would break them |
| Chains.Chain.ReapOldest | internal/segment/chain.go:416-428 | the oldest segment goes as a whole with its file and its bytes, or nothing changes, also when closing it fails |
| Chains.Chain.Rotate | internal/segment/chain.go:390-402 | a new empty segment follows the last one under a name no live file has, or nothing changes |
| Chains.Chain.Place | internal/segment/chain.go:390-411 | an admitted batch lands in the last segment or in a new one; a failure leaves at most one more empty segment |
| Chains.Chain.AppendTail | internal/segment/chain.go:404-411 | only the last segment and its file change, and when the write fails they stand for what they stood for |
| Chains.Chain.TruncateBefore | internal/segment/chain.go:433-507 | removes exactly the records below the number; every state of the directory on the way still holds a chain with all records from that number on; a failure leaves every segment in memory as it was, all of them listed or those whose files are gone dropped, and the disk counter lowered by removed files |
| Chains.Chain.TruncateAfter | internal/segment/chain.go:512-584 | keeps exactly the records up to the number, or starts over at the start sequence below the head; every state of the directory on the way lacks some segments right behind the kept one, or is the finished cut; below the head it lacks some of the oldest segments, or holds only the new one or a part of its header; a failure leaves every segment in memory as it was, all of them listed or the removed ones dropped, and the disk counter lowered by removed files |
| Chains.Chain.KeepIndex | internal/segment/chain.go:441-446 | the search finds the segment that holds a record, and none exactly when the record is out of range |
| Chains.Chain.RemoveFiles | internal/segment/chain.go:454-466 | the files of a range of segments go one by one, oldest first, and the disk counter falls by the sizes of those gone, also when it stops early |
| Chains.Chain.DropAll | internal/segment/chain.go:448-475 | truncating past the end leaves one segment with every record hidden |
| Chains.Chain.DropTo | internal/segment/chain.go:477-506 | truncating inside a segment drops the segments before it and hides its records below the number |
| Chains.Chain.ChopTo | internal/segment/chain.go:556-584 | truncating the end inside a segment drops the segments behind it and its frames above the number |
| Chains.Chain.Restart | internal/segment/chain.go:527-553 | truncating the end below the head leaves a single empty segment at the start sequence; on the way the oldest segments are gone, or all are and the new one is on its way |
| Chains.Chain.Load | internal/segment/chain.go:126-338 | a directory that holds a chain within the limits, with at most the last file torn, yields exactly this chain and is tidy afterwards; an empty one yields a new log; one with a faulty file is refused with what is wrong with the first one, told by its bytes; one with a torn frame in a file other than the last is refused as torn, one with too many segments or bytes as such, and one with gaps as not contiguous; whatever a load accepts leaves no gap between segments; the disk counter is the sum of the sizes; every state of the directory on the way holds the same chain, and a refused directory is not touched unless it was trimmed and is too large |
| Chains.Chain.Gather | internal/segment/chain.go:160-300 | the segments found and the one to trim, or the reason why the directory is refused, in both modes |
| Chains.Chain.Settle | internal/segment/chain.go:318-337 | a torn segment that is not the last one is refused, and nothing is touched; trimming the torn last file makes the directory tidy; the sizes add up to the disk counter, and are refused exactly when they exceed the byte limit |
| Chains.Chain.StartFirst | internal/segment/chain.go:303-316 | an empty directory gets one segment at the start sequence |
| Loading.LoadMany | internal/segment/chain.go:238-300 | files of a chain are found in order, and only the last may be torn; well-formed segments in order are refused as not contiguous exactly when they leave gaps; the count limit holds; too many are refused as such, a faulty file with what is wrong with it, and of several torn files the second, or the one that is not the last is singled out |
| Loading.LoadSingle | internal/segment/chain.go:160-236 | a single segment is found under any name and always trimmed; when torn, it is refused; more than one are refused as too many; a faulty file is refused with what is wrong with it |
| Loading.LoadFiles | internal/segment/chain.go:257-281 | every file yields its segment, in order, and the one with a torn frame is singled out, if that is tolerated; the first other fault, or a second torn frame, is reported |
| Loading.LeadingNames | internal/segment/chain.go:257-281 | a sorted directory begins with the segments of the smallest names |
| Loading.Assemble | internal/segment/chain.go:282-300 | more segments than allowed are refused; in start order they are refused as not contiguous exactly when they leave gaps |
| Surveys.StumblesRuns | internal/segment/chain.go:257-281 | a run over files that end cleanly up to one with a fault stops there, with the error that belongs to its bytes |
| Surveys.FaultStops | internal/segment/segment.go:75-164 | which error belongs to which bytes: no bytes, too few for a header, a bad header, a bad read start, a frame with another index, a frame with a wrong checksum, a torn frame where that is not tolerated |
| Surveys.FrailRuns | internal/segment/chain.go:269-280 | a tolerant run gets past one torn frame, in whichever file it is, and not past a second one |
| Surveys.HeldRuns | internal/segment/chain.go:257-281 | a torn frame in the last file only is singled out where it is tolerated, and stops the run where it is not |
| Loading.StartOrderMeans | internal/segment/chain.go:286-289 | start order is the order of the numbers of the first readable records |
| Loading.SortByStart | internal/segment/chain.go:286-289 | a permutation in start order that keeps segments already in order where they are |
| Loading.CheckGapless | internal/segment/chain.go:291-300 | accepts exactly the sequences in which the number behind the last record of each segment is the first one of the next |
| Loading.NamesInOrder | internal/segment/chain.go:257-281 | directory order is segment order |
| Crashes.AppendStateLoads | internal/segment/chain.go:341-412 | wherever an append stops, the directory holds a chain within the limits with the old records less needed reapings and a prefix of the batch or one accidental empty record, or a file shorter than a header, or a corrupt mixed frame header |
| Crashes.WritingLoads | internal/segment/chain.go:390-411 | wherever the writing of an admitted batch stops, in the last segment or in a new one, its whole records can be loaded, or the new segment header is short, or a mixed frame header is corrupt or passes for an empty record |
| Crashes.AppendSpoiled | internal/segment/segment.go:173-197 | a corrupt mixed header leaves well-formed segments of which the last goes on with a frame that fails its checksum |
| Crashes.RestartLoads | internal/segment/chain.go:527-553 | wherever starting over below the head stops, the directory holds a suffix of the old chain, nothing, the new segment, or its header cut short |
| Contents.OneSegment | internal/segment/segment.go:75-164 | a file stands for one segment at most: base, frames and read start are determined by its bytes |
| Contents.OneContent | internal/segment/chain.go:257-300 | a directory holds one sequence of segments at most, whether its last file ends cleanly, torn or corrupt |
| Mixes.MixedLoads | internal/segment/segment.go:173-197 | an append stopped inside a frame header that was there before leaves the old chain exactly as it was when the mixed length is nonzero; when it is zero, one more empty record if the checksum passes, and a corrupt file if not |
| Mixes.EightBytesSpoil | internal/segment/segment.go:173-197 | an instance of the last case: an empty payload appended over the header of a longer one, and stopped after eight bytes |
| Recovery.TruncationSurvives | internal/segment/chain.go:433-507 | wherever a truncation of the front stops, among removals or with a slot half written, the directory holds a chain with all records from the number on, in no more space |
| Recovery.CutBackStates | internal/segment/chain.go:556-584 | wherever a truncation of the end stops, some segments right behind the kept one are gone, or all are and the kept one is cut |
| Recovery.GapLeft | internal/segment/chain.go:291-300 | what such a gap leaves is well formed, and contiguous exactly when nothing is behind the gap or no record was in it |
| Recovery.CutAppendLoadable | internal/segment/segment.go:173-197 | a directory whose last append was cut after any number of bytes holds the old records and the whole ones of the batch; it needs no trimming exactly when the cut is between frames or right behind a frame header |
| Retention.RefusedIffNoneFits | internal/segment/chain.go:372-380 | the last segment alone is over a limit exactly when no number of reaped segments makes room |
| Retention.AdmissibleIffSomeFits | internal/segment/chain.go:348-388 | a batch is admissible exactly when it fits an empty segment and some number of reaped segments makes room for it |
| Retention.RotatesExactly | internal/segment/chain.go:353-354 | a batch goes to a new segment exactly when it would make the last one larger than a segment may be |
| Retention.TooLargeExactly | internal/segment/chain.go:348-351 | a batch is too large exactly when a segment of nothing else would be larger than a segment may be |
| Retention.PlacedExactly | internal/segment/chain.go:390-411 | the segments after an admitted batch are the old ones with the batch in the last, if that stays within its limit, and in a new one behind it otherwise |
| Retention.PressureExactly | internal/segment/chain.go:357-368 | the byte limit and the count limit each stand against a batch exactly when the segments with the batch would break it |
| Retention.NeedsReapExactly | internal/segment/chain.go:356-372 | a batch that is not too large for a chain within its limits needs no segment to go exactly when the segments with it are within the limits |
| Retention.AdmissibleExactly | internal/segment/chain.go:348-388 | a batch is admissible to a chain within its limits exactly when, without some of its oldest segments, it can take the batch in its last or in a new segment within the limits |
| Retention.LeastExactly | internal/segment/chain.go:356-388 | the number of segments given up is the least one without which the chain can take the batch within the limits |
| Retention.ReapingHelps | internal/segment/chain.go:358-388 | giving up one more segment never makes a batch harder to admit |
| Retention.RotatesNonempty | internal/segment/chain.go:349-354 | a segment is rotated only when it holds frames, so the names of segments strictly increase |
| Retention.WithinAdmitted | internal/segment/chain.go:348-409 | an admitted batch keeps total size, segment size and segment count within their limits |
| Retention.WithinEmpty | internal/segment/chain.go:303-316 | a single empty segment respects the limits exactly when each of them leaves room for a header |
| Retention.IndexNeverWraps | internal/segment/segment.go:458-475 | when segments are kept narrow, the 32-bit frame index cannot wrap |
| Retention.TargetTakes | internal/segment/chain.go:349-354 | the segment an admitted batch goes to has room for it in every machine width |
| Retention.AbsAdmitted | internal/segment/chain.go:341-412 | after reaping and admission the records are the old ones without those of the reaped segments, plus the batch |
| Retention.AbsRefused | internal/segment/chain.go:374-407 | after a failed append the records are the old ones without those of the reaped segments |
| Retention.AppendDecided | internal/segment/chain.go:341-412 | an append that meets no disk failure succeeds if and only if its batch is empty, or admissible with payloads below 2^32 bytes; it is refused for the length of a payload exactly when it is admissible otherwise; for segments within the limits, both hold with "what is left without some of the oldest segments can take the batch within the limits" for admissible |
| Retention.AppendsAbs | internal/segment/chain.go:341-412 | whatever an append answers, the records after it are the old ones without those of the segments it gave up, plus the whole batch on success and nothing otherwise |
| Retention.AppendsWithin | internal/segment/chain.go:341-412 | whatever an append answers, segments within the limits stay within them |
| Retention.CutsFrontAbs | internal/segment/chain.go:433-507 | the segments left by a truncation of the front hold exactly the records from the number on, within the limits |
| Retention.CutsFrontExactly | internal/segment/chain.go:441-506 | of all segments but the last exactly those are removed that hold no record at or above the number; the others keep their frames |
| Retention.CutsEndAbs | internal/segment/chain.go:512-584 | the segments left by a truncation of the end hold exactly the records up to the number, or none below the head, within the limits |
| Retention.CutsEndExactly | internal/segment/chain.go:520-584 | unless the log starts over, exactly the segments are removed that begin above the number, and the last one kept loses exactly its frames above it |
| Retention.SpaciousAppends | internal/segment/chain.go:341-412 | an append uses up no more of the room in any segment than its batch takes |
| Retention.ArchiveAdmits | pkg/archive/archive.go:46-52 | with archive sizing and at least one immutable segment, a batch that fits an empty segment is admitted after at most one reaping, and the byte budget never bites before the count limit; only when there are as many segments as are allowed is one given up |
| Model.AbsHeaded | internal/segment/chain.go:477-506 | hiding the front of one segment and dropping those before it removes exactly the records below a number |
| Model.AbsTailed | internal/segment/chain.go:556-575 | cutting one segment and dropping those behind it removes exactly the records above a number |
| Model.TruncatedExactly | pkg/log/log.go:238-245 | both truncations leave exactly the records on their side of the number, with their payloads, and the other end of the log where it was |
| Model.ExtendedExactly | pkg/log/log.go:215-230 | forgetting the oldest records and adding a batch leaves the other records under their numbers and gives the batch the next ones |
| Model.AbsDrop | internal/segment/chain.go:416-428 | dropping the oldest segments forgets exactly their records |
| Model.AbsGrown | internal/segment/chain.go:404-411 | growing the last segment adds the batch at the end, and as many bytes as its frames take |
| Model.RecordPlace | pkg/log/scan.go:154-164 | frame j of a segment is the record with number base + j of the log |
| Scanners.Scanner.Seek | internal/segment/scanner.go:69-99 | fails exactly outside the segment's numbers; otherwise stands before the asked record, or behind the last one |
| Scanners.Scanner.Next | internal/segment/scanner.go:127-166 | yields exactly the next frame, clipped to the limit, and steps over all of it; reports a clean end behind the last frame and a torn one as an error |
| Scanners.ReadAtEnd | internal/frame/read.go:49-86 | behind the last frame of a cleanly ended file a reader sees the end; a reader of headers only does so exactly when no header dangles there |
| Segments.Segment.Append | internal/segment/segment.go:453-520 | the segment holds its old frames and the whole batch, or on any failure is as it was, write position and sparse index included; a payload too long for a frame is the reason exactly when there is one, and then nothing is written |
| Segments.EncodeBatch | internal/segment/segment.go:458-475 | the bytes, index and offset of consecutive frames; fails exactly when a payload does not fit a frame |
| Segments.AppendSize | internal/segment/segment.go:267-274 | the bytes by which a batch makes a file grow |
| Segments.Segment.Persist | internal/segment/segment.go:477-494 | nothing before the write position changes, even when the write fails halfway |
| Segments.Segment.PersistOrTrim | internal/segment/segment.go:496-502 | the batch is written, or the file is cut back to where it would have begun; each state on the way is the old file with the first bytes of the batch behind it |
| Segments.Segment.Checkpoint | internal/segment/segment.go:504-511 | checkpoints stay true (index, offset) pairs, none is lost, and every multiple of 256 among the new frames gets one |
| Segments.Segment.OffsetForIndex | internal/segment/segment.go:206-232 | the offset of every frame is the sum of the frames before it, found after at most 255 header reads from any retained frame |
| Segments.Segment.IndexForOffset | internal/segment/segment.go:234-264 | the inverse of the offset: succeeds exactly on frame boundaries of a file that ends behind its last frame, with the index of that frame; inside a frame it reports a bad header |
| Segments.Segment.Find | internal/segment/segment.go:289-306 | succeeds exactly for the retained numbers and the one behind them, with index and offset of that frame |
| Segments.Segment.Truncate | internal/segment/segment.go:309-335 | fails as out of bounds exactly outside the retained numbers; otherwise the frames from the number on are gone, from the file too, and the sparse index is still true and dense; a failure leaves the segment in memory as it was |
| Segments.Segment.Trim | internal/segment/segment.go:340-351 | the file is cut or grown to the write position, or is as it was |
| Segments.Segment.SetReadOffset | internal/segment/segment.go:412-433 | the read start moves to the frame at the offset, in the file and in memory, and nothing else changes; a failure leaves the segment in memory as it was; each state on the way has the one slot half written at most |
| Segments.Segment.WriteReadOffset | internal/segment/header.go:187-211 | only the slot that is not live is written |
| Segments.Segment.AnchorSparseIndex | internal/segment/segment.go:200-204 | the first frame, the read start and the end have checkpoints |
| Segments.Segment.ScanFrames | internal/segment/segment.go:173-197 | the scan ends behind the last whole frame, with the verdict on what lies there, and leaves a true and dense sparse index |
| Segments.Load | internal/segment/segment.go:75-164 | a file that holds a segment yields exactly this segment if nothing follows its frames, or a lone frame header; together with an error if a torn frame follows; none, and the error for it, if a frame with another index or with a wrong checksum follows; none if the file is shorter than a header, begins with other bytes than "ALOG" and version 1, has two slots that fail their checksums, or a read start inside a frame or beyond 63 bits |
| Segments.TailVerdict | internal/segment/segment.go:173-197 | the verdict of a scan, by the bytes behind the frames, in every case |
| Segments.FaultIsReported | internal/segment/header.go:151-183 | a header is refused exactly when its first eight bytes are not "ALOG" and version 1, or both of its slots fail their checksums |
| Segments.Create | internal/segment/segment.go:355-394 | a new file with a new header stands for an empty segment; on failure only that one file may have appeared |
| Segments.Segment.constructor | internal/segment/segment.go:58-72 | a new segment is empty, starts behind its header, and has one checkpoint there |
| Segments.ChoppedIndex | internal/segment/segment.go:326-334 | cutting frames off leaves checkpoints that are true of the rest, and as dense |
| Segments.MovedIndex | internal/segment/segment.go:425-432 | moving the read start leaves true checkpoints, dense from the new start on |
| Index.OffsetIndex.Set | internal/segment/index/offset.go:56-79 | search and insertion are linear insertion: one entry per index, in order |
| Index.OffsetIndex.SparseSet | internal/segment/index/offset.go:47-53 | inserts exactly the entries for multiples of 256 |
| Index.OffsetIndex.ForFrameIndex | internal/segment/index/offset.go:82-86 | the last entry at or before an index, and none exactly when all are behind it |
| Index.OffsetIndex.ForOffset | internal/segment/index/offset.go:89-93 | an entry at or before an offset whose successor is behind it |
| Index.OffsetIndex.By | internal/segment/index/offset.go:132-147 | the entry right before the first one that exceeds the bound |
| Index.OffsetIndex.FindFrameIndex | internal/segment/index/offset.go:115-130 | the place of the last entry at or before an index, or the first place |
| Index.OffsetIndex.TruncateAfter | internal/segment/index/offset.go:96-103 | search and cut drop the entries behind an index one at a time, but never the first entry |
| Index.OffsetIndex.TruncateBefore | internal/segment/index/offset.go:106-113 | search and cut drop the entries before an index one at a time, but keep the last one not behind it |
| Index.PutSplit | internal/segment/index/offset.go:56-79 | insertion where a search says is insertion from the back |
| Index.PutMarks | internal/segment/index/offset.go:56-79 | an insertion adds its index and loses none |
| Index.SparseSound | internal/segment/index/offset.go:47-53 | sampling a true position keeps all entries true, loses none, and extends what they cover |
| Index.KeepUpToKeeps | internal/segment/index/offset.go:96-103 | what is kept are the entries up to the index, all of them |
| Index.KeepFromKeeps | internal/segment/index/offset.go:106-113 | what is kept are old entries, with all those from the index on |
| Index.NearestCheckpoint | internal/segment/index/offset.go:47-93 | with a checkpoint at every multiple of 256, at the read start and at the end, the nearest one at or before a frame is less than 256 frames away |
| Layout.FileAppend | internal/segment/segment.go:477-485 | an encoded batch written behind the last frame makes the file hold the old frames and the batch |
| Layout.FileChop | internal/segment/segment.go:309-335 | cutting a file at a frame boundary keeps exactly the frames before it |
| Layout.TornTail | internal/segment/segment.go:173-197 | a file that ends in any byte prefix of a batch holds its whole frames, and the reader's report behind them depends only on how many bytes of the next frame are there |
| Layout.TailReads | internal/frame/read.go:49-114 | what a reader makes of the bytes where frame k should begin, in every case: a clean end if there are none or exactly a header of frame k that announces a payload; a torn frame if there are fewer than the frame takes; another index; a wrong checksum; or the frame |
| Layout.SlotWriteMovesStart | internal/segment/header.go:187-211 | a finished slot update moves the read start of the file and nothing else |
| Layout.TornSlotKeepsStart | internal/segment/header.go:187-211 | an unfinished one leaves the file standing for the same segment |
| Slots.MetaIsLastLanded | internal/segment/header.go:159-211 | over any number of updates and crashes, past the wrap of the 16-bit generation, the header yields the last update that took effect, never an older one, and counts them modulo 2^16 |
| Slots.UpdateLands | internal/segment/header.go:187-211 | a finished update is the one that is read next |
| Slots.TornUpdateKeeps | internal/segment/header.go:187-211 | an update cut short leaves the meaning of the header as it was |
| Slots.OutdatedLoses | internal/segment/header.go:107-183 | of two slots one generation apart, across the wrap too, the newer one is read, in either order |
| Slots.AheadWins | internal/segment/header.go:107-183 | of two valid slots the one that is 1 to 32767 generations ahead, modulo 2^16, is read, in either order; when neither is, the second |
| Slots.NewHeaderSound | internal/segment/header.go:214-227 | a new header is valid, carries its start sequence, and starts right behind itself at generation 0 |
| Slots.HeaderBytes | internal/segment/header.go:214-227 | every byte of a new header by its position: "ALOG", version 1, the start sequence, a slot for offset 64, zeros |
| Slots.NextSlotBytes | internal/segment/header.go:187-211 | every byte of the slot an update writes by its position: the offset, the next generation, the reserved bytes as they were, the checksum |
| Slots.WriteByte | internal/segment/header.go:188-191 | an update writes at byte 32 after an even generation and at byte 16 after an odd one |
| Frames.EncodedFrameReads | internal/frame/header.go:92-101 | a written frame is read back, wherever it lies in a file, and passes validation |
| Frames.HeaderBytes | internal/frame/header.go:92-101 | every byte of a frame header by its position: length and index, most significant byte first, zeros, the checksum of all this and the payload |
| Frames.TornFrameReads | internal/frame/read.go:49-114 | a frame cut short is never read as a frame; it reads as a clean end exactly when none of it, or exactly its header, is there |
| Frames.LimitedRead | internal/frame/read.go:49-86 | a payload limit cuts what is returned, not what is stepped over |
| Frames.FrameIsLocal | internal/frame/read.go:49-114 | reading a frame depends on the bytes of that frame only |
| Writers.Serve | pkg/log/write/writer.go:122-163 | over any sequence of events, exactly the requests before the first cancellation are taken, in order, and all later ones refused; the events and the thresholds alone decide which requests are appended together: a batch ends with the request that brings it to a threshold, or when the timer fires, or with the cancellation; taken requests are answered in order, each on its channel, once, with the error of the append its batch was part of or with the number its payload got; when the writer has stopped, all of them are |
| Writers.Turn | pkg/log/write/writer.go:141-163 | one event: a request whose batch stays below both thresholds with it is answered later, one that brings it to a threshold has the whole batch written at once; when the timer fires or the context is cancelled, everything taken so far is written and answered; a waiting writer stays below both thresholds, with its timer running exactly while it has a batch |
| Writers.BatchedStep | pkg/log/write/writer.go:141-163 | the batches that the remaining events lead to are the one due at the next event and those after it |
| Writers.AnswerOfBatch | pkg/log/write/writer.go:166-191 | every answered request was part of one batch; if its append failed, the answer is the error of the append, and otherwise the number is that of its place in the batch |
| Writers.GroupDecided | pkg/log/write/writer.go:166-191 | on a disk that does not fail, a batch is written if and only if its payloads fit frames and the segments that the batches before it left, less some of the oldest, can take it within the limits |
| Writers.GroupAppended | pkg/log/write/writer.go:129-139 | a batch takes all waiting requests and the segments the last one left |
| Writers.SuccessTells | pkg/log/write/writer.go:166-191 | the number in a successful response is the number of that payload in the log, until it is reaped |
| Writers.SuccessesConsecutive | pkg/log/write/writer.go:183-190 | successive successful responses carry successive numbers, across batches and failures |
| Writers.ServedBatch | pkg/log/write/writer.go:166-191 | answering a batch keeps the log equal to the one the writer found plus all payloads answered with success, less reaped ones |
| Writers.WriteBatch | pkg/log/write/writer.go:166-191 | every request of a batch gets one response on its channel: the error of the append if it failed, and consecutive numbers up to its result if not; segments and records are those of one append, and the payloads in the log are exactly those answered with success; without disk failures success is exactly for admissible batches of payloads that fit a frame |
| Writers.RespondEach | pkg/log/write/writer.go:183-190 | successes are numbered consecutively in request order |
| Writers.RespondAll | pkg/log/write/writer.go:173-181 | a failed append answers every request with its error |
| Writers.Writer.Receive | pkg/log/write/writer.go:148-161 | a request joins the batch; if it is still below both thresholds, nothing is written or answered, and otherwise the whole batch is, and the writer has none |
| Writers.Writer.Flush | pkg/log/write/writer.go:129-139 | the waiting requests, if any, are appended as one batch; afterwards every taken request is answered, the batch is empty and the timer stopped |
| Writers.Writer.Cancel | pkg/log/write/writer.go:143-145 | what was taken is still written and answered before the writer stops |
| Writers.Writer.TimerFires | pkg/log/write/writer.go:146-147 | all waiting requests are appended as one batch, and everything taken is answered |

## Left out

- Logs.Log.Append: numbers below 2^64, frame indexes and offsets within their widths are required; the source does not check them.
- Chains.Chain.Append: requires the same machine widths.
- Segments.Segment.Append: requires the same machine widths.
- Runs.AppendAndCrash: requires the same machine widths.
- Crashes.AppendStateLoads: requires the same machine widths.
- Crashes.WritingLoads: requires the same machine widths.
- Reading.LogScanner.Next: with a payload limit of zero, a call at the end of a segment requires that no frame header dangles there; such a scanner would read one record too many (`Scanners.ReadAtEnd`).
- Reading.LogScanner.ReadOne: the same.
- Writers.Serve: does not model the race of a client between cancellation and being taken; a request is taken or refused.
- Chains that were never loaded, and operations on them.
- Reads that fail, files closed under a reader, and segments reaped while they are scanned.
- Sorting by start sequence is modelled as stable, and directory order as numeric order of names.
- Directory plumbing of loading: other files, symbolic links, missing directories.
- The frame pool, mutexes, goroutines, contexts, real time, and `Sync`.
- CRC32C arithmetic; the only trust placed in it is stated at `Slots.TornSlot`.
- pkg/wal, pkg/journal and the rest of pkg/archive, which are thin wrappers.
