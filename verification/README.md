# Proofs about the update engine

This project models the parts of the recovery and update engine whose correctness is a matter of state
and arithmetic, and proves what they are there for. `dafny verify dfyconfig.toml` checks all of it.

The modules follow the source files; `Basics` has what they share:

- `RangeSets` (otautil/rangeset.cpp): block ranges as sequences and as sets.
- `Scatter`, `TransferList`, `Resume`, `Updater` (updater/blockimg.cpp): the transfer-list executor.
  `TransferList` has a one-pass interpreter that knows nothing of hashes, stash files, indices or
  interruptions; `Resume` has the invariant that makes an interrupted update resumable and one lemma per
  durable change; `Updater` has the executor as a class. A durable operation may be the last one before
  an interruption; the block being written or discarded may then hold anything.
- `RangeSink`, `NewData` (updater/blockimg.cpp): the streaming writer, byte by byte, and the hand-over of
  `new` data between two threads as a step system.
- `ImageChunks`, `ImagePatch` (applypatch/imgdiff.cpp, applypatch/imgpatch.cpp): image mode from the
  scan for gzip streams to the applied patch.
- `SplitImages`, `ZipPatch` (applypatch/imgdiff.cpp): splitting a zip under a limit, and the patches of
  the pieces up to the rebuilt target.
- `Sideload` (fuse_sideload.cpp): the block cache in front of a host that may change its answers.
- `BlockMap` (uncrypt/uncrypt.cpp, otautil/SysUtil.cpp): the map of a file's blocks, made and mapped.
- `PartitionPatch` (applypatch/applypatch.cpp): patching a partition under interruption.
- `Crc32`, `BootControl` (boot_control/boot_control.cpp): the checksum and the block it protects.
- `Der` (asn1_decoder.cpp, verifier.cpp): the DER walker and the signature it extracts.

Where the code updates fields or works in place, the model is a class or a loop over the same variables,
proved against a function on values; the properties are lemmas about those functions and invariants.

## Assumptions

- Hashes are injective; the all-zero SHA-256 does not occur.
- bsdiff, bspatch, inflate and deflate are functions: bspatch inverts bsdiff, ignores what follows the
  patch and hands out non-empty pieces; a deflate stream ends itself and is not empty; deflating does not
  depend on how the input is cut up. imgdiff is given files in which at least four bytes follow every
  deflate stream it inflates (`FootersInRange`); `FooterTest` shows that the code's unsigned test of the
  footer position is right exactly then.
- A transfer list keeps what updater/blockimg.cpp:1870-1877 promises: no block is read after it is written,
  each is written by one command, a stash is made before its uses and freed after them. Stash ids are
  unique and differ from the source hash of an overlapping command. `erase` does not occur.
- Durable writes take effect in program order. For the temporary backup of an overlapping transfer this is
  more than the code sees to: it unlinks the backup (updater/blockimg.cpp:1230) before it flushes the
  targets (1766), and the model needs the targets to be durable before the unlink.
- A write error in the executor stops the run in the same way as a power cut. Reads do not fail: after a
  read error in the loading of a stash (updater/blockimg.cpp:1180-1194) the code gives the update up and
  deletes the stash.
- File sizes and offsets fit the program's integers where nothing else is said. Products and differences
  that wrap are written out in `ByteRange`, `FooterMissing` and `Mul32`.

## What does not hold

- A skipped `new` command does not consume its data, so a list with `new` on both sides of a saved index
  can be resumed to a different device. `Update` states the exact condition, `SkippedNewBreaks` a list.
- A failed request to the sideload host leaves the block number of the buffer but not its contents, so a
  later read of that block is answered with the wrong bytes. `HandleRead` states when, `StaleRead` how.
- When FIBMAP first answers 0 for a block, the retry asks for block 0 instead of that block. The map is
  that of the file exactly when this does not happen after the first block (`FoundIsFile`);
  `WrongMap` is a file for which it is not.
- The backup of an in-place partition patch is truncated when a second run writes it again, so two
  interruptions can lose the partition (`LostByTwoCuts`); one cannot (`RerunInPlace`). `Rerun` says exactly
  which sequences of interruptions it survives.
- A deflate chunk whose data is empty cannot be applied: the sink is never called and the stream is never
  finished (`RoundTrip`, `StreamOutput`); `EmptyStream` has two files.

## Model

| member | source | states |
|---|---|---|
| `Updater.BlockImage.RunAttempts` | updater/blockimg.cpp:1526-1841 | From any state an interruption can leave, verify-then-update attempts, each cut anywhere, keep the state resumable; the first attempt that is not cut completes, and leaves the device of the plain one-pass run, no stash and no saved index |
| `Updater.BlockImage.Update` | updater/blockimg.cpp:1610-1841 | An update after a dry run is never given up and stops only when it is cut, which leaves a resumable state if skipping was harmless; uncut it completes, and leaves the one-pass device if and only if the commands skipped do not shift the `new` data of later ones; on any device it ends well only if no transfer after the saved index is hopeless and undisturbed by earlier commands |
| `Updater.BlockImage.ExecuteUpdate` | updater/blockimg.cpp:1708-1834 | The commands after the saved index and the end of the run, from a running state to the result of the update |
| `Updater.BlockImage.EndUpdate` | updater/blockimg.cpp:1778-1834 | After the last command stash and index are removed in an order that keeps every intermediate state resumable |
| `Updater.BlockImage.UpdateCommands` | updater/blockimg.cpp:1708-1776 | The command loop skips exactly the commands up to the saved index, keeps the run invariant, and leaves a recoverable state wherever it is cut |
| `Updater.BlockImage.UpdateCommand` | updater/blockimg.cpp:1738-1774 | One command takes the run from before it to after it, or stops in an interruptible state; it never fails on a good job |
| `Updater.BlockImage.Verify` | updater/blockimg.cpp:1526-1841 | A dry run on a resumable state succeeds unless it is cut, changes neither device nor stash, and if it ends well every transfer up to a kept index is complete; on any device it succeeds only if no transfer is hopeless (neither done, nor its packed source there, nor stashed), fails only at a transfer that is not there, and then forgets stash and index; the device is unchanged, and unless unresumable no stash file that matches its name is removed from a directory that was there |
| `Updater.BlockImage.EndVerify` | updater/blockimg.cpp:1825-1834 | A dry run removes the stash only when the update cannot be resumed or the run made the directory |
| `Updater.BlockImage.CheckCommands` | updater/blockimg.cpp:1708-1776 | The dry-run loop keeps resumability and never fails on a state an interruption left |
| `Updater.BlockImage.CheckCommand` | updater/blockimg.cpp:1745-1764 | A skipped transfer whose target does not match drops the saved index; nothing else changes |
| `Updater.BlockImage.PerformCommandTransfer` | updater/blockimg.cpp:1197-1237 | move and bsdiff/imgdiff: completes the targets or stops resumable; in a dry run the device is untouched |
| `Updater.BlockImage.PerformCommandStash` | updater/blockimg.cpp:1239-1287 | stash: after success the content is on disk unless its users are complete; a stash already overwritten on a resumed run is not an error |
| `Updater.BlockImage.StashSource` | updater/blockimg.cpp:1254-1286 | Without a good file a matching source is stashed and the index saved; a source with other contents is left for the commands that need it, and a dry run writes nothing |
| `Updater.BlockImage.PerformCommandFree` | updater/blockimg.cpp:1289-1304 | free: after success the file is gone, and nothing else; it removes only a stash no later command uses, and in a dry run it forgets nothing needed |
| `Updater.BlockImage.PerformCommandZero` | updater/blockimg.cpp:1306-1347 | zero: every byte of the targets is zero, every other block is unchanged |
| `Updater.BlockImage.PerformCommandNew` | updater/blockimg.cpp:1349-1381 | new: the targets hold the next slice of the stream and the stream moves on, every other block is unchanged; it fails only when the stream runs out |
| `Updater.BlockImage.LoadSrcTgtVersion3` | updater/blockimg.cpp:1103-1195 | Done exactly when the target hash matches; ready only with a source of the given hash, backed up first if it overlaps its target; never unavailable on a resumable state |
| `Updater.BlockImage.VerifySource` | updater/blockimg.cpp:1152-1194 | A bad source is replaced by its backup or reported; an overlapping good source is on disk before the target is touched |
| `Updater.BlockImage.BackUpSource` | updater/blockimg.cpp:1152-1175 | The backup is written before the index is saved, the index stays sane, and the backup is to be freed exactly if it is new |
| `Updater.BlockImage.FinishTransfer` | updater/blockimg.cpp:1218-1236 | The targets are written, and exactly then the temporary backup goes |
| `Updater.BlockImage.SaveStash` | updater/blockimg.cpp:1271-1286 | Stash file first, then the saved index; each intermediate state is resumable |
| `Updater.BlockImage.LoadSourceBlocks` | updater/blockimg.cpp:1014-1075 | The buffer is the assembly of the device blocks at their locations and of the stashes that load at theirs, whatever it held before; overlap is reported exactly when a block is shared |
| `Updater.BlockImage.ReadSource` | updater/blockimg.cpp:1029-1048 | Reading and spreading within one buffer puts each block at its location |
| `Updater.BlockImage.AddStash` | updater/blockimg.cpp:1050-1072 | A loaded stash goes to its range, one that does not load is left out |
| `Updater.BlockImage.LoadStash` | updater/blockimg.cpp:736-809 | The remembered range in a dry run or the file; a file that does not match its name is deleted, a matching one never |
| `Updater.BlockImage.WriteStash` | updater/blockimg.cpp:811-890 | The file appears complete or not at all; an existing one is kept on request |
| `Updater.BlockImage.UpdateLastCommandIndex` | updater/blockimg.cpp:121-161 | The saved index is the old or the new one, and the new one unless the run is cut or saving has failed |
| `Updater.BlockImage.WriteBlocks` | updater/blockimg.cpp:504-525 | On success exactly the target blocks hold the data in order; cut anywhere, no other block has changed, discarding included |
| `Updater.BlockImage.WriteRange` | updater/blockimg.cpp:204-216 | A discarded or half-written range changes nothing outside it |
| `Updater.BlockImage.DeleteStash` | updater/blockimg.cpp:721-734 | Stash files go one by one, the rest stay honest |
| `Updater.SpreadInPlace` | updater/blockimg.cpp:984-995 | Spreading packed blocks inside their own buffer equals scattering an untouched copy |
| `Resume.InterruptedIsResumable` | updater/blockimg.cpp:1738-1764 | Every state an interrupted update can leave satisfies what the next dry run needs |
| `Resume.SkippedNewBreaks` | updater/blockimg.cpp:1738-1744 | A concrete list with a stash between two `new` commands: the state after the stash passes the dry run, and resuming from it is harmless only if the two slices of the stream are equal |
| `Resume.CompletedRun` | updater/blockimg.cpp:1738-1776 | The device after a run from a saved index is the one-pass device if and only if the skipping was harmless |
| `Resume.CompletedDevice` | updater/blockimg.cpp:1738-1776 | All transfers done and all fills as this run writes them determine the device; it is the reference exactly when no fill was shifted |
| `Resume.OneSideIsSafe` | updater/blockimg.cpp:1738-1744 | Lists without `new` on both sides of a command that saves its index are safe to resume |
| `Resume.FromStartHarmless` | updater/blockimg.cpp:1349-1381 | A run from the first command reads every slice at its own place |
| `Resume.PristineIsResumable` | updater/blockimg.cpp:1526-1560 | The untouched device is a resumable state |
| `Resume.WriteKeepsCore` | updater/blockimg.cpp:1218-1236 | Writing part of a command's targets keeps the invariant if its source is backed up or not overlapped |
| `Resume.Advance` | updater/blockimg.cpp:1197-1237 | A completed command moves the frontier: its transfers are done, later sources intact, needed stashes on disk |
| `Resume.CommandCompleted` | updater/blockimg.cpp:1738-1774 | A completed command moves the run one further |
| `Resume.AddStashKeepsCore` | updater/blockimg.cpp:811-890 | One more honest stash file keeps the invariant |
| `Resume.RemoveBackup` | updater/blockimg.cpp:1229-1232 | Removing the temporary backup of a completed transfer removes no stash a later command uses |
| `Resume.InterruptedFree` | updater/blockimg.cpp:1289-1304 | Freeing after the last use keeps the invariant |
| `Resume.DoneIsRecognised` | updater/blockimg.cpp:1138-1150 | A completed transfer passes the target hash check, so it is not executed on its own output |
| `Resume.NotDoneIsPending` | updater/blockimg.cpp:1138-1150 | A target hash that does not match means the command is at or after the frontier |
| `Resume.PendingSource` | updater/blockimg.cpp:1150-1194 | A pending transfer can assemble its source or has it in the stash |
| `Resume.BackupLoads` | updater/blockimg.cpp:1180-1186 | The backup of an overlapping transfer is found by its hash, in an update and in a dry run |
| `Resume.OriginsPassStash` | updater/blockimg.cpp:1248-1269 | In a dry run the remembered source ranges of stashes stay usable |
| `Resume.IntactAssembles` | updater/blockimg.cpp:1014-1075 | An intact source assembles to the content the list names |
| `Resume.StartAfterIndex` | updater/blockimg.cpp:1738-1744 | A confirmed index is a place the update can start from |
| `Resume.ConfirmedStart` | updater/blockimg.cpp:1687-1692 | The place an update starts from is in the list, and harmless for a stream-safe list |
| `Resume.FinishedRemovesStash` | updater/blockimg.cpp:1803-1806 | Removing stash files after the last command keeps the state resumable until the index is gone |
| `TransferList.RefIsDetermined` | updater/blockimg.cpp:1843-1880 | The one-pass device is determined by what each command writes and what none writes |
| `TransferList.RefWritten` | updater/blockimg.cpp:1870-1877 | A command's targets keep what it wrote to the end of the run |
| `TransferList.RefUnwritten` | updater/blockimg.cpp:1870-1877 | A block not written yet has its original content |
| `TransferList.RefReadsOriginal` | updater/blockimg.cpp:1870-1877 | Every read of the one-pass run sees original content |
| `TransferList.AssembledFromDevice` | updater/blockimg.cpp:1029-1048 | Block q of the source ranges is at place q of the assembled source, or at place q of the locations, unless a stash goes there |
| `TransferList.AssembledFromStash` | updater/blockimg.cpp:1050-1072 | Block m of a stash that loads is at place m of its range, unless a later stash goes there |
| `TransferList.MovedBlock` | updater/blockimg.cpp:1197-1237 | After a move of packed blocks, block q of its target has what block q of its source had in the original image, to the end of the run |
| `TransferList.FilledBlock` | updater/blockimg.cpp:1306-1381 | A zeroed block is all zeros at the end of the run, and block q of a `new` is block q of what the stream had left |
| `TransferList.RefTable` | updater/blockimg.cpp:1870-1880 | The stash table holds under each id the content it is the hash of |
| `Scatter.MoveRange` | updater/blockimg.cpp:984-995 | Scattering backward, also within one buffer, equals scattering an untouched copy of the packed blocks |
| `Scatter.MovingStep` | updater/blockimg.cpp:984-995 | One backward move overwrites no packed block still to be moved |
| `Scatter.GatherPut` | updater/blockimg.cpp:486-525 | Reading back distinct blocks gives what was written |
| `Scatter.PutIs` | updater/blockimg.cpp:504-525 | Writing is determined by what it leaves at the written and at the other positions |
| `RangeSink.RangeSinkWriter.Write` | updater/blockimg.cpp:258-290 | Writes all it is given or all there is room for unless an I/O call fails; what has been fed so far is on the device in place |
| `RangeSink.RangeSinkWriter.FinishedIsBatch` | updater/blockimg.cpp:249-256 | A finished writer fed in any pieces has done exactly what the batch writer does |
| `RangeSink.RangeSinkWriter.Finished` | updater/blockimg.cpp:250-252 | Finished exactly when no space is available |
| `RangeSink.RangeSinkWriter.AvailableSpace` | updater/blockimg.cpp:254-256 | Bytes written, left in the current range and in the ranges to come add up to the total, even after a failed call |
| `RangeSink.RangeSinkWriter.SeekToOutputRange` | updater/blockimg.cpp:296-319 | Opening the next range may discard it and nothing else; it stops only at the end or on an I/O failure |
| `RangeSink.WriteBlocks` | updater/blockimg.cpp:504-525 | Batch writing puts the buffer at the byte addresses of the ranges |
| `RangeSink.ByteAddress` | updater/blockimg.cpp:275-285 | Byte q of the data goes to byte q % 4096 of the block that is number q / 4096 in the ranges |
| `RangeSink.StreamedWrite` | updater/blockimg.cpp:258-290 | One piece extends what has been streamed by exactly its bytes |
| `NewData.StepKeepsInv` | updater/blockimg.cpp:366-404 | Every step of either thread keeps the protocol invariant: mutex, ownership of the writer, wake-ups, stream position and device contents |
| `NewData.RunDelivers` | updater/blockimg.cpp:1349-1381 | In every run the k-th `new` that returns success has put exactly the k-th slice of the stream in its targets and changed nothing else |
| `NewData.NewGetsItsSlice` | updater/blockimg.cpp:1362-1378 | Success is reported only when the targets hold the slice |
| `NewData.OnlyReceiverMovesCursor` | updater/blockimg.cpp:366-404 | The writer's cursor is moved only by the receiver, while the other thread waits; the error report reads it only after the receiver has gone |
| `NewData.SomeoneCanMove` | updater/blockimg.cpp:470-484 | No reachable state leaves both threads waiting: until both have ended one can go on without a needless wake-up and without a failure |
| `NewData.BothEnd` | updater/blockimg.cpp:1776-1792 | Whatever fails, both threads end in every sequence of steps in which a thread that can go on does so |
| `NewData.StepDescends` | updater/blockimg.cpp:366-404 | Every step but other commands and needless wake-ups decreases a well-founded measure |
| `NewData.RunKeepsInv` | updater/blockimg.cpp:1349-1381 | The invariant holds in every state of every run |
| `RangeSets.RangeSet.Insert` | otautil/rangeset.cpp:202-226 | The result is sorted, disjoint and non-adjacent, its block set is the union and the count is its cardinality |
| `RangeSets.MergeSorted` | otautil/rangeset.cpp:211-225 | The merging loop makes the canonical list of the same blocks |
| `RangeSets.RangeSet.InsertBytes` | otautil/rangeset.cpp:228-231 | Inserting bytes adds exactly the blocks they occupy |
| `RangeSets.RangeSet.Overlaps` | otautil/rangeset.cpp:175-190 | True exactly when the block sets meet |
| `RangeSets.RangeSet.OverlapsBytes` | otautil/rangeset.cpp:233-236 | True exactly when a byte's block is in the set |
| `RangeSets.ByteRangeMeaning` | otautil/rangeset.cpp:228-236 | The block range of a byte interval holds exactly the blocks of its bytes |
| `RangeSets.RangeSet.Split` | otautil/rangeset.cpp:106-144 | min(groups, blocks) non-empty groups with the same blocks in the same order, larger groups first, sizes differing by at most one |
| `RangeSets.FillGroup` | otautil/rangeset.cpp:121-142 | A group takes exactly its number of blocks and never reads past the last range |
| `RangeSets.HandedAll` | otautil/rangeset.cpp:113-116 | The group sizes add up to all the blocks |
| `RangeSets.RangeSet.GetBlockNumber` | otautil/rangeset.cpp:159-171 | The idx-th block in visiting order |
| `RangeSets.RangeSet.PushBack` | otautil/rangeset.cpp:85-99 | Refuses empty ranges and overflow, otherwise appends |
| `RangeSets.RangeSet.FromPairs` | otautil/rangeset.cpp:32-45 | A bad or overflowing pair leaves the empty set |
| `RangeSets.OffsetInRangeSetMeaning` | otautil/rangeset.cpp:238-267 | Found exactly when the offset's block is listed; the packed offset lands on that block at the same place in it |
| `RangeSets.OffsetInvertsBlockNumber` | otautil/rangeset.cpp:159-171 | Translating an offset is the left inverse of looking up a block by its number |
| `RangeSets.RangeSet.GetOffsetInRangeSet` | otautil/rangeset.cpp:248-267 | The loop computes that translation, with its abort |
| `RangeSets.Relocation` | applypatch/imgdiff.cpp:473-477 | A chunk whose blocks are all listed is at its relocated offset in the packed content, unchanged and in one piece |
| `RangeSets.CanonicalCardinality` | otautil/rangeset.cpp:202-226 | The block count of a canonical list is the cardinality of its block set |
| `ImageChunks.Image.Initialize` | applypatch/imgdiff.cpp:1246-1359 | The chunks are those of the scan; they tile the file and every deflate chunk is a complete deflate stream with what it inflates to |
| `ImageChunks.Image.AddBody` | applypatch/imgdiff.cpp:1268-1338 | A body is accepted only with a footer that gives its size; otherwise the scan goes on where it was |
| `ImageChunks.DeflatesOfScan` | applypatch/imgdiff.cpp:1246-1338 | The deflate chunks are exactly the bodies after gzip headers that the scan comes to, if they inflate and the four bytes at the end of their footer are their size, low byte first |
| `ImageChunks.BodyIsGood` | applypatch/imgdiff.cpp:1301-1332 | A body is accepted exactly when it inflates and its footer has its size, byte by byte |
| `ImageChunks.FooterTest` | applypatch/imgdiff.cpp:1316-1320 | The unsigned test for a missing footer is right exactly when the index is not past the end of the file |
| `ImageChunks.Image.ScanForward` | applypatch/imgdiff.cpp:1343-1352 | The data up to the next gzip header or the end |
| `ImageChunks.Image.MergeAdjacentNormalChunks` | applypatch/imgdiff.cpp:591-611 | The in-place loop compacts every run of adjacent normal chunks |
| `ImageChunks.CompactTiles` | applypatch/imgdiff.cpp:591-611 | Compacting keeps what the chunks cover |
| `ImageChunks.CompactIsCompact` | applypatch/imgdiff.cpp:591-611 | No two neighbours could still be merged |
| `ImageChunks.CompactKeepsDeflates` | applypatch/imgdiff.cpp:591-611 | Compacting keeps every deflate chunk, in order |
| `ImageChunks.CompactByTypes` | applypatch/imgdiff.cpp:1375-1427 | In a list without gaps how it compacts depends on the types alone |
| `ImageChunks.CheckAndProcessChunks` | applypatch/imgdiff.cpp:1375-1427 | Succeeds exactly when the two images compact to the same types, so the last comparison of counts never fails; a kept deflate chunk differs from its source and can be reproduced |
| `ImageChunks.ChooseMeans` | applypatch/imgdiff.cpp:1396-1414 | In bytes: a target chunk stays a deflate chunk exactly if its source has other bytes and level 6 or 9, tried in this order, gives its bytes again |
| `ImageChunks.ProcessPair` | applypatch/imgdiff.cpp:1396-1414 | A pair stays deflate exactly when it differs and level 6 or 9 reproduces the target |
| `ImageChunks.ReconstructDeflateChunk` | applypatch/imgdiff.cpp:380-456 | Succeeds exactly when level 6 or 9 gives the bytes of the file, and prefers 6 |
| `ImageChunks.Image.SetBonusData` | applypatch/imgdiff.cpp:1361-1371 | Bonus data goes after what the second source chunk inflates to, if that is a deflate chunk |
| `ImagePatch.RoundTrip` | applypatch/imgpatch.cpp:141-291 | Applying a container to the source makes the target byte for byte if no deflate target is empty, and fails otherwise |
| `ImagePatch.Imgdiff` | applypatch/imgdiff.cpp:1590-1613 | A patch comes out exactly when the processed images have the same structure, bonus data has a deflate chunk to go to and bsdiff does not fail; applied to the source and the bonus data it gives the target exactly when no kept stream of the target inflates to nothing |
| `ImagePatch.EmptyStream` | applypatch/imgdiff.cpp:1431-1472 | Two files, one with a stream that inflates to nothing, for which imgdiff makes a patch that cannot be applied |
| `ImagePatch.GeneratePatches` | applypatch/imgdiff.cpp:1431-1472 | Every pair of chunks gets a patch that makes the target chunk, of its type and with its sizes; a normal chunk is stored as it is exactly if it is short or its patch is longer; it fails exactly if bsdiff does on a pair it is asked about |
| `ImagePatch.PatchesFit` | applypatch/imgdiff.cpp:183-193 | In a patch of less than 16 GiB for a target of less than 2 GiB all numbers fit the fields they are written to |
| `ImagePatch.WritePatchDataToFd` | applypatch/imgdiff.cpp:545-579 | The container: magic, count, headers whose offsets point at the patches, patches |
| `ImagePatch.WriteHeader` | applypatch/imgdiff.cpp:499-535 | The header of a chunk and the offset of the next patch |
| `ImagePatch.ContainerStarts` | applypatch/imgpatch.cpp:151-156 | The container begins with IMGDIFF2 and the number of chunks |
| `ImagePatch.RecordBytes` | applypatch/imgdiff.cpp:499-535 | The kind of a record and the fixed deflate parameters, as bytes |
| `ImagePatch.ApplyOne` | applypatch/imgpatch.cpp:158-287 | The reader consumes exactly the header the writer laid out and finds the patch the offset points at |
| `ImagePatch.ApplyAll` | applypatch/imgpatch.cpp:156-290 | All records of a container are applied in turn |
| `ImagePatch.ApplyImagePatch` | applypatch/imgpatch.cpp:141-291 | The reader's loop on any patch, with its error returns |
| `ImagePatch.StreamOutput` | applypatch/imgpatch.cpp:75-131 | Deflating piece by piece succeeds exactly when the pieces have the expected length and there is one, and gives the deflated whole |
| `ImagePatch.ApplyDeflateChunk` | applypatch/imgpatch.cpp:209-281 | Inflating the source with its bonus data, patching and deflating |
| `ImagePatch.ReadWrite` | applypatch/imgdiff.cpp:183-193 | A number below the width survives being written and read |
| `ImagePatch.ByteOfNumber` | applypatch/imgdiff.cpp:183-193 | Numbers are written least significant byte first |
| `ImagePatch.PiecesAreFile` | applypatch/imgdiff.cpp:1431-1472 | The target chunks put together are the file |
| `SplitImages.SplitZipModeImageWithLimit` | applypatch/imgdiff.cpp:904-990 | The pieces are contiguous, begin at blocks and add up to the target; their sources are disjoint and, but for the central directory, exceed the limit by at most a block; a piece has the blocks of a target chunk's first-named source, and both chunks if they are deflate chunks, unless the source is taken or the target chunk is at the head of its piece; the loop ends and never steps back before the first chunk |
| `SplitImages.AddSplitImage` | applypatch/imgdiff.cpp:992-1061 | A piece is added exactly when alignment leaves something of its target; its content is the packed source blocks and not empty |
| `SplitImages.AlignTargets` | applypatch/imgdiff.cpp:1001-1040 | The target chunks cut at the first block boundary and filled up to the last |
| `SplitImages.ValidateSplitImages` | applypatch/imgdiff.cpp:1063-1096 | Every check of the validation holds for a split |
| `SplitImages.RemoveUsedBlocks` | applypatch/imgdiff.cpp:226-246 | What is left of a chunk is part of it, not empty and free of used blocks; a free chunk is not trimmed |
| `SplitImages.AlignHead` | applypatch/imgdiff.cpp:197-209 | Trims to the next block boundary, and fails exactly when nothing is left |
| `SplitImages.AlignTail` | applypatch/imgdiff.cpp:211-221 | Trims to the last block boundary, and fails exactly when nothing is left |
| `SplitImages.FindChunkByName` | applypatch/imgdiff.cpp:834-857 | The first chunk the name matches, with the rule for split entries |
| `SplitImages.NamesThatMatch` | applypatch/imgdiff.cpp:834-857 | Names match if equal, or but for the -0 of the first part of a split entry; normal chunks only if asked for |
| `SplitImages.PlacedCloses` | applypatch/imgdiff.cpp:956-980 | When a piece is closed every chunk handled so far is in a piece with its source, or its source is taken, or it is at the head of a piece |
| `SplitImages.SourceGrows` | applypatch/imgdiff.cpp:945-951 | Inserting a free chunk within the limit keeps the piece disjoint from the others and within the limit plus a block |
| `SplitImages.PackSource` | applypatch/imgdiff.cpp:1042-1048 | The source content is the blocks of the ranges, packed |
| `ZipPatch.GenerateSplitPatches` | applypatch/imgdiff.cpp:1160-1244 | A patch file comes out exactly when bsdiff does not fail on a chunk that is not stored raw, against its deflate source or the packed piece; read piece by piece with its split info it makes the target from the source exactly when no deflate chunk of the pieces inflates to nothing |
| `ZipPatch.Imgdiff` | applypatch/imgdiff.cpp:1569-1586 | Splitting a zip and making the patches of its pieces: the split is sound, the patch file has the properties of `GenerateSplitPatches` for that split, and the pieces keep only deflate chunks of the target |
| `ZipPatch.RelocatedMakes` | applypatch/imgdiff.cpp:473-477 | Relocation never aborts and makes each patch one of the packed content |
| `ZipPatch.MakeChunkPatch` | applypatch/imgdiff.cpp:1098-1139 | A target chunk is patched from its deflate source or from the whole piece, and fails exactly if bsdiff does on that |
| `ZipPatch.ContainerLength` | applypatch/imgdiff.cpp:537-542 | The patch size in the split info is the length of the container |
| `ZipPatch.RelocateAll` | applypatch/imgdiff.cpp:1184-1188 | Every chunk of a piece is relocated and the sizes are added up |
| `Sideload.FuseData.ServeReads` | fuse_sideload.cpp:500-560 | Over any sequence of reads and answers, as long as the host has not failed, every successful read is a piece of one fixed file |
| `Sideload.FuseData.HandleRead` | fuse_sideload.cpp:347-410 | A read, also across two blocks, is a piece of the fixed file unless it is served from a buffer a failed request has changed, and in that case it is that buffer; what comes from the host is at its place, byte for byte |
| `Sideload.FuseData.FetchBlock` | fuse_sideload.cpp:291-345 | A block is let through only with the content first seen of it; if the host was asked, byte for byte what it answered, and zero past the end of the file |
| `Sideload.FuseData.AskHost` | fuse_sideload.cpp:307-345 | The first content is accepted and kept, a different one is refused, a failed request leaves the block number but not the buffer; what is let through is the answer, byte for byte |
| `Sideload.FuseData.FindVictim` | fuse_sideload.cpp:144-160 | The scan for a block to evict ends at a live entry other than the current block |
| `Sideload.FuseData.BlockCacheEnter` | fuse_sideload.cpp:142-166 | The count is the number of live entries and never exceeds the maximum |
| `Sideload.FuseData.BlockCacheFetch` | fuse_sideload.cpp:131-140 | A hit gives the accepted content |
| `Sideload.FuseData.FetchSize` | fuse_sideload.cpp:307-313 | Bytes of the block that are in the file, with the 32-bit product |
| `Sideload.FuseData.ZeroPastEnd` | fuse_sideload.cpp:297-313 | Past the end of the file the fixed file is zero |
| `Sideload.RepliesAgree` | fuse_sideload.cpp:347-410 | Two replies agree wherever they meet |
| `Sideload.StaleRead` | fuse_sideload.cpp:307-317 | Two successful reads of one position, with a failed request between them, that give different bytes |
| `BlockMap.ProduceBlockMap` | uncrypt/uncrypt.cpp:254-460 | A map comes out exactly if no I/O call fails; its ranges expand to the blocks found, no two joinable; only places of the file are written, and if FIBMAP was prompt each holds its block |
| `BlockMap.RoundTrip` | otautil/SysUtil.cpp:66-166 | Mapping that map succeeds with nothing remaining and gives the bytes of the file, if FIBMAP was prompt |
| `BlockMap.FoundIsFile` | uncrypt/uncrypt.cpp:234-252 | The blocks found are those of the file exactly when FIBMAP answered at once for every block after the first |
| `BlockMap.WrongMap` | uncrypt/uncrypt.cpp:234-252 | A file of two blocks whose map, after a late answer for the second, gives the first block twice |
| `BlockMap.FindBlock` | uncrypt/uncrypt.cpp:355-368 | The block used after retries |
| `BlockMap.RetryFibmap` | uncrypt/uncrypt.cpp:234-252 | The retry asks with the 0 it got, so it finds the first block |
| `BlockMap.WindowRead` | uncrypt/uncrypt.cpp:381-396 | Reading into the window keeps file blocks in order from its head |
| `BlockMap.WindowWritten` | uncrypt/uncrypt.cpp:370-379 | Writing out the head keeps file blocks in order from the new head |
| `BlockMap.WindowHead` | uncrypt/uncrypt.cpp:354-379 | The buffer at the head holds the block to be written; full and empty are told apart |
| `BlockMap.ReadsFile` | uncrypt/uncrypt.cpp:381-388 | A block is read before anything is written over it |
| `BlockMap.AddBlockToRanges` | uncrypt/uncrypt.cpp:153-163 | The list grows by the block and no two ranges are joinable |
| `BlockMap.MapBlockFile` | otautil/SysUtil.cpp:66-166 | Succeeds exactly for a well-formed map of the right total, and maps the listed blocks in order |
| `PartitionPatch.Flash.ApplyPatch` | applypatch/applypatch.cpp:477-540 | Zero means the target already matched or a full read-back did; a later run can succeed exactly if this one could and its backup was not cut short while it was needed; without interruption a recoverable state ends with the target |
| `PartitionPatch.Flash.GenerateTarget` | applypatch/applypatch.cpp:596-673 | The backup is complete before the partition is touched and is removed last; it is truncated before it is written |
| `PartitionPatch.Flash.WriteToPartition` | applypatch/applypatch.cpp:218-344 | Success means a full read-back matched, whatever the medium stores |
| `PartitionPatch.Flash.ReadBack` | applypatch/applypatch.cpp:277-313 | The first piece that differs, with all before it read back equal, or the end |
| `PartitionPatch.Flash.WriteRest` | applypatch/applypatch.cpp:239-252 | Short writes continue where they stopped; a cut leaves a piece of the data |
| `PartitionPatch.Flash.LoadSource` | applypatch/applypatch.cpp:497-515 | The target, then the source: done already or contents that have a patch |
| `PartitionPatch.LoadPartitionContents` | applypatch/applypatch.cpp:97-187 | The shortest beginning of the partition that has one of the hashes |
| `PartitionPatch.FindMatchingPatch` | applypatch/applypatch.cpp:378-387 | The first patch for a hash |
| `PartitionPatch.Rerun` | applypatch/applypatch.cpp:477-540 | After any sequence of runs, interrupted anywhere and on any media, a full run makes the target if no run has lost the source, and in place only if |
| `PartitionPatch.RerunFromOther` | applypatch/applypatch.cpp:477-540 | However often patching from another partition is interrupted, the next full run makes the target |
| `PartitionPatch.RerunInPlace` | applypatch/applypatch.cpp:477-540 | Patching in place survives any interruptions of which at most the first is in the writing of the backup, so any single one |
| `PartitionPatch.LostByTwoCuts` | applypatch/applypatch.cpp:618-626 | In place a second interruption, while the backup is written again, loses the partition |
| `Crc32.Table.CRC32` | boot_control/boot_control.cpp:64-85 | The table-driven checksum is the bit-serial one on every buffer |
| `Crc32.Table.Compute` | boot_control/boot_control.cpp:67-77 | The table holds the turned bytes |
| `Crc32.RegisterIsRemainder` | boot_control/boot_control.cpp:64-85 | The register is the remainder of the message, complemented at its beginning, on division by the polynomial of section 8 of RFC 1952, written as its exponents |
| `Crc32.KnownChecksums` | boot_control/boot_control.cpp:64-85 | Two known checksums, which fix the complements at the beginning and the end |
| `Crc32.TableStep` | boot_control/boot_control.cpp:79-82 | One look-up takes in a byte |
| `Crc32.TakeBitsTogether` | boot_control/boot_control.cpp:69-76 | Taking bits one by one is the same as taking them at once and turning the register |
| `Crc32.BurstDetected` | boot_control/boot_control.cpp:64-85 | Buffers that differ only within four consecutive bytes have different checksums |
| `Crc32.FourZeros` | boot_control/boot_control.cpp:64-85 | Four bytes that turn a zero register to zero are zero |
| `BootControl.Module.LazyInitialization` | boot_control/boot_control.cpp:210-242 | An intact block is used and left alone; any other is replaced by an intact one for the slots found, unless the save fails; nothing else in the partition changes |
| `BootControl.Module.UpdateAndSaveBootloaderControl` | boot_control/boot_control.cpp:111-127 | What is saved passes the check, and nothing outside the block changes even if the write fails half-way |
| `BootControl.TamperingIsNoticed` | boot_control/boot_control.cpp:229-238 | A change within four consecutive covered bytes never passes the check |
| `BootControl.SealedIsIntact` | boot_control/boot_control.cpp:87-92 | A block with its own checksum is intact |
| `BootControl.CountSlots` | boot_control/boot_control.cpp:142-170 | The number of slots is n exactly when the first n are there and none after |
| `BootControl.Module.InitDefaultBootloaderControl` | boot_control/boot_control.cpp:129-196 | The new block byte by byte: suffix, magic number, version, and for each slot priority 7 and seven tries if it is there, none if not, with the success bit for the current slot alone |
| `Der.SignatureIsRead` | verifier.cpp:64-113 | Extraction returns exactly the signature of every encoded message without signed attributes |
| `Der.ReadPkcs7` | verifier.cpp:64-113 | On any input the result is a non-empty piece of the input, and the walk is the one described |
| `Der.OpenSignedData` | verifier.cpp:67-84 | The contents of the SignedData, three levels down |
| `Der.DecodeEncoded` | asn1_decoder.cpp:48-72 | Decoding a length inverts writing it, short or in up to seven octets |
| `Der.OctetOfNumber` | asn1_decoder.cpp:48-72 | Length octets are most significant first |
| `Der.Context.DecodeLength` | asn1_decoder.cpp:48-72 | The length octets are read, more than seven refused, and the cursor stays in its range |
| `Der.Context.GetByte` | asn1_decoder.cpp:28-37 | The cursor moves forward and its end stays where it is |
| `Der.Context.SkipBytes` | asn1_decoder.cpp:39-46 | Skips only what is there |
| `Der.Context.SequenceGet` | asn1_decoder.cpp:108-117 | A child lies within its parent and has the contents of the element |
| `Der.Context.SetGet` | asn1_decoder.cpp:119-128 | The same for a set |
| `Der.Context.ConstructedGet` | asn1_decoder.cpp:77-89 | The same for a context-specific element, with its number |
| `Der.Context.SequenceNext` | asn1_decoder.cpp:130-136 | Skips one element, if it is all there |
| `Der.Context.ConstructedSkipAll` | asn1_decoder.cpp:91-102 | Skips the context-specific elements and succeeds only if something follows |
| `Der.Context.StringGet` | asn1_decoder.cpp:138-159 | A non-empty string within the range |
| `Der.SkipEncoded` | asn1_decoder.cpp:130-136 | Skipping as many elements as were encoded leaves what follows them |
| `Der.ReadElement` | asn1_decoder.cpp:39-72 | The contents and the rest of an encoded element |

## Left out

- Updater.BlockImage.PerformCommandNew: takes its slice at once or writes an arbitrary part and stops; the two threads behind it are the step system of `NewData`, which starts at the command loop, so the early returns between creating the thread and that loop are not covered.
- Updater.BlockImage.LoadStash: file names, sizes and permissions of stash files are not modelled; a file is its contents.
- Updater.BlockImage.CreateStash: the size limits on the cache partition and the cleaning of stale partial files are not modelled.
- Updater.BlockImage.AddStash: a file of another size than the range it goes to leaves the buffer with any contents; the code reads past the end of the file's data.
- ImagePatch.ApplyImagePatch: offsets and lengths whose sum exceeds 64 bits are added without wrapping.
- ImagePatch.RoundTrip: is stated for containers below 2^64 bytes, raw chunks and chunk counts below 2^31 and numbers below 2^64, as the comments at applypatch/imgdiff.cpp:183-190 demand.
- ImagePatch.Imgdiff: the round trip is stated for targets below 2 GiB, patches below 16 GiB and streams that inflate to less than 2^64 bytes, from which the bounds of `RoundTrip` follow (`PatchesFit`).
- ZipPatch.GenerateSplitPatches: the same bounds (`SizesFit`); reading the zip directory and preparing the chunks (applypatch/imgdiff.cpp:646-896) is replaced by what they establish, `Prepared`, `TargetOk`, `SourceOk` and `MatchesFit`.
- ImageChunks.Image.Initialize: the read past the end of the file that a wrapped footer test would allow is excluded by `FootersInRange`.
- Sideload.FuseData.HandleRead: files above 2^32 bytes and block numbers from 2^32 - 2 on are excluded; replies to the kernel and other requests are not modelled.
- BlockMap.MapBlockFile: the numbers of the map are given as numbers, not as text, and a range past the end of the device counts as a failed mapping.
- BlockMap.RoundTrip: needs FIBMAP to be prompt, as `FoundIsFile` shows it must be.
- PartitionPatch.Flash.ApplyPatch: the patch formats are one function; files other than partitions, free space on the cache and `applypatch_flash` are not modelled.
- Der.SignatureIsRead: tags of one byte and lengths of at most seven octets, as the walker supports.
- Parsing of transfer lists, range texts and last-command files; progress, logging and error codes.
- `erase`, the check of the first block, block image recovery, brotli-compressed `new` data.
- Several partitions updated in one run, which share the remembered stash ranges.
- Zip mode without a block limit.
- Key parsing, signature checks and the slot setters of the boot control module.
- User interfaces, mounting, sockets, SELinux and the other real I/O.
