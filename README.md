# FileZilla transfer-engine core in Dafny

This project models the parts of FileZilla that carry state or parse text and
proves properties about them:

- **Buffer ring.** This covers the shared buffer block of `aio_base` (POSIX
  and Windows builds), the ring of eight buffers that readers and writers share,
  `file_reader`, `memory_reader`, `string_reader`/`buffer_reader` and
  `file_writer`. Each iteration of a background `entry()` loop is one
  `WorkerStep`. Posted events and condition-variable signals are counters.
- **Transfer preparation.** This covers the operation state machines of FTP,
  SFTP and Storj file transfers and of the directory-cache `Lookup`. The cache,
  the control socket, the overwrite check and the options are input values.
  Requests to the control socket are recorded outputs.
- **`CServer`.** This covers URL parsing, the guarded setters, equality and
  ordering, `Format`, and the protocol and logon-type tables.
- **The options store** (`COptionsBase`). This covers clamping, the
  default-only and default-priority rules, change notification, the watched-options
  bit set and the watcher list.
- **`ConvertToVersionNumber`**, the packing of a version string into a 64-bit number.
- **The certificate store.** This covers the trusted lists and insecure sets,
  kept for the session and permanently.
- **String and path utilities.** This covers `ExpandPath`, `TryDirectory`, the
  settings-directory candidates, `GetAsURL`, `UnquoteCommand`,
  `GetExtension`, `IsInvalidChar`, and the edit handler's file list,
  `TruncateFilename` and temporary names.
- **The Storj helper's line protocol**, in its trunk and branch versions:
  `getLine`, `next_argument`, `SplitPath`, reply framing and command dispatch.

Every module is a file. The modules are `Common`, `Aio`, `Ring`, `Reader`,
`StringReaders`, `Writer`, `Text`, `Transfer`, `FtpTransfer`, `SftpTransfer`,
`StorjTransfer`, `Lookup`, `Server`, `ServerData`, `Options`, `Version`,
`CertStore`, `FzPaths`, `FileUtils`, `EditHandler`, `StorjTrunk` and
`StorjBranch`.

Where a source function does what its comment or the surrounding code says
it should not, the model keeps a member that does what the code does, proves
the discrepancy on a concrete input, and uses a corrected member everywhere
else (see "## Findings").

## Model

| member | source | states |
|---|---|---|
| Aio.Layout | src/engine/aio.cpp:43-45 | Buffer i starts at `base + i*(BufferSize+page) + page` and ends inside the region. Two different buffers do not overlap. The page before each buffer belongs to no buffer. |
| Aio.LayoutAll | src/engine/aio.cpp:70-72 | The buffers as the loop lays them out are inside the region and pairwise disjoint. |
| Aio.MmapFailureUndetected | src/engine/aio.cpp:61-64 | As written, the success test accepts `MAP_FAILED` as a mapping. |
| Aio.MmapAcceptedAsWritten | src/engine/aio.cpp:61-64 | The success test as written, comparing the converted `mmap` result with null; `MmapFailureUndetected` proves it accepts `MAP_FAILED`. |
| Aio.PosixAio.constructor | src/include/aio.h:48-51 | A fresh block has no memory, no size and the given descriptor (`mapping_`). |
| Aio.PosixAio.AllocateMemory | src/engine/aio.cpp:37-75 | With memory already present, it returns true and changes nothing. Otherwise the size is `(BufferSize+page)*BufferCount+page`. The shared path succeeds iff a descriptor is set and `mmap` succeeds (intended test). The heap path always succeeds. On success, every buffer is laid out. |
| Aio.PosixAio.FillBuffers | src/engine/aio.cpp:70-72 | After the loop, every buffer slot holds its place in the block with capacity `BufferSize`. |
| Aio.BlockInfo | src/engine/aio.cpp:78-84 | The mapping, base and size handed to a child process; once the block is laid out, the range covers every buffer slot. |
| Aio.PosixAio.SharedMemoryInfo | src/engine/aio.cpp:78-84 | Returns the descriptor, the base and the size. The returned range covers every buffer. |
| Aio.PosixAio.Release | src/engine/aio.cpp:20-35 | Exactly one release path. Unmap (with the base and size) iff a descriptor is set, otherwise `delete[]` of the base. |
| Aio.WindowsAio.constructor | FileZilla3/trunk/src/include/aio.h:40-42 | A fresh block has no memory and an invalid mapping handle. |
| Aio.WindowsAio.AllocateMemory | FileZilla3/trunk/src/engine/aio.cpp:22-50 | A repeated call returns true and changes nothing. The size is the region size. The shared path succeeds iff `CreateFileMapping` and `MapViewOfFile` both succeed. A failure there returns false with no heap fallback. The heap path always succeeds. |
| Aio.WindowsAio.FillBuffers | FileZilla3/trunk/src/engine/aio.cpp:45-47 | Every buffer is laid out at its place with capacity `BufferSize`. |
| Aio.WindowsAio.SharedMemoryInfo | FileZilla3/trunk/src/engine/aio.cpp:52-55 | Returns the handle, the base and the size, covering every buffer. |
| Aio.WindowsAio.Release | FileZilla3/trunk/src/engine/aio.cpp:11-20 | Unmaps the non-null view iff a mapping handle exists, else `delete[]`s the base. |
| Common.SizeCache.Get | FileZilla3/trunk/src/engine/reader.cpp:76-89 | The size is probed once and then remembered. A negative probe is remembered as `nosize`. |
| Ring.Slot | FileZilla3/trunk/src/engine/reader.cpp:140-146 | A ring position advanced by any count is always a valid slot index. |
| Ring.Queue | src/include/aio.h:39-42 | The queue of a ring snapshot has `count` elements. Element i is the slot `i` places after the start. |
| Ring.SlotsDistinct | src/include/aio.h:26 | Different positions in one pass of the ring are different slots. |
| Ring.QueuePop | FileZilla3/trunk/src/engine/reader.cpp:140-146 | Releasing the head: the head is the start slot. Advancing the start by one slot and counting one less leaves the rest of the queue. |
| Ring.QueuePush | src/engine/writer.cpp:123-129 | Storing into slot `(pos+count) mod N` and counting one more appends exactly that buffer to the queue. |
| Ring.QueueFrame | FileZilla3/trunk/src/engine/reader.cpp:236-237 | Writing the first free slot leaves the queued buffers unchanged. |
| Reader.ChunksReassemble | FileZilla3/trunk/src/engine/reader.cpp:350-363 | The chunks a memory reader hands out put together give the data back. Each chunk is non-empty and at most `BufferSize` long. All but the last are full. |
| Reader.QueueInvPop | FileZilla3/trunk/src/engine/reader.cpp:140-146 | Releasing the oldest buffer keeps the reader queue invariant (released followed by queued is every produced buffer, in order). |
| Reader.QueueInvPush | FileZilla3/trunk/src/engine/reader.cpp:247-250 | Queuing a read chunk keeps the invariant. An empty chunk marks end of file and stops the worker. |
| Reader.QueueInvStop | FileZilla3/trunk/src/engine/reader.cpp:243-245 | The worker leaving its loop keeps the invariant. |
| Reader.QueueInvEof | FileZilla3/trunk/src/engine/reader.cpp:260-262 | An empty buffer at the head of the queue is the last buffer produced, after end of file, with the worker stopped. |
| Reader.ReadAt | FileZilla3/trunk/src/engine/reader.cpp:240 | One read call returns at most `BufferSize` bytes and at most its limit. It returns nothing past the end of the file. |
| Reader.ReadAtSlice | FileZilla3/trunk/src/engine/reader.cpp:240 | A read returns the next bytes of the file. With room for a byte, it returns none iff the position is at the end. |
| Reader.ReadRun | FileZilla3/trunk/src/engine/reader.cpp:227-264 | One chunk per read call. |
| Reader.RunBytesFlatten | FileZilla3/trunk/src/engine/reader.cpp:227-264 | The bytes of a run of reads are its chunks concatenated. |
| Reader.RunBytesSlice | FileZilla3/trunk/src/engine/reader.cpp:227-264 | The bytes of a run starting inside the file are the file's next bytes. |
| Reader.ReadRunReassembles | FileZilla3/trunk/src/engine/reader.cpp:227-264 | Successive reads return the file in order without gaps: the chunks concatenated are the bytes that follow the start position. |
| Reader.ReadRunAfterEnd | FileZilla3/trunk/src/engine/reader.cpp:251-262 | Once the position is at the end, every read returns no bytes. |
| Reader.FileReader.constructor | FileZilla3/trunk/src/engine/reader.cpp:162-165 | A new file reader has an empty ring, is not processing and has no worker, error or quit. |
| Reader.FileReader.SignalCapacity | FileZilla3/trunk/src/engine/reader.cpp:266-269 | Wakes the worker once. |
| Reader.FileReader.Release | FileZilla3/trunk/src/engine/reader.cpp:140-146 | Drops the head of the queue into the released buffers and lowers the count by one. Capacity is signalled only when the ring was full. |
| Reader.FileReader.Read | FileZilla3/trunk/src/engine/reader.cpp:133-159 | Errors are sticky and change nothing. After an `ok`, the previous buffer is released first. The result is `ok` iff a buffer is queued, and it is the oldest (FIFO). Otherwise it is `wait` with the handler waiting and processing cleared. An empty `ok` buffer means end of file. |
| Reader.FileReader.HandOut | FileZilla3/trunk/src/engine/reader.cpp:147-158 | Hands out the oldest queued buffer and sets processing, or answers `wait` and records that the handler waits. |
| Reader.FileReader.WorkerStep | FileZilla3/trunk/src/engine/reader.cpp:227-264 | One loop iteration. A full ring changes nothing. A slot `(pos+count) mod N` is filled only when `count < N`. A failed read sets the sticky error and stops the worker. A 0-byte read queues end of file and stops it. A waiting handler gets exactly one event. |
| Reader.FileReader.Iterate | FileZilla3/trunk/src/engine/reader.cpp:236-262 | The body after a free slot was found. It leaves the read position and the consumer's state alone. |
| Reader.FileReader.Complete | FileZilla3/trunk/src/engine/reader.cpp:247-258 | Queues what was read or records the failure. A waiting handler gets one event and stops waiting. |
| Reader.FileReader.NotifyHandler | FileZilla3/trunk/src/engine/reader.cpp:255-258 | Exactly one event iff the handler was waiting. The wait flag is cleared. |
| Reader.FileReader.Stop | FileZilla3/trunk/src/engine/reader.cpp:243-253 | The worker stops, with `quit`/`error` set as requested. |
| Reader.FileReader.EmptySlot | FileZilla3/trunk/src/engine/reader.cpp:237 | Emptying the first free slot leaves the queue unchanged. |
| Reader.FileReader.Advance | FileZilla3/trunk/src/engine/reader.cpp:240-250 | The chunk read is appended to the queue and to the produced buffers. The file position moves past it. The worker keeps running iff the chunk is non-empty. |
| Reader.FileReader.Open | FileZilla3/trunk/src/engine/reader.cpp:185-210 | Succeeds iff memory, the file, the seek (for a non-zero offset) and the thread all succeed. Then the worker runs from the offset. Otherwise no worker runs. |
| Reader.FileReader.Rewind | FileZilla3/trunk/src/engine/reader.cpp:212-225 | Fails once `error` is set. A failed seek sets the sticky error. A good seek returns to the start offset. |
| Reader.FileReader.Size | FileZilla3/trunk/src/engine/reader.cpp:271-285 | Computed once and cached. A negative probe becomes `nosize`. |
| Reader.FileReader.Close | FileZilla3/trunk/src/engine/reader.cpp:172-183 | Quit is set, the worker stopped and every ready buffer dropped. |
| Reader.MemoryReader.constructor | FileZilla3/trunk/src/engine/reader.cpp:322-328 | Start data and data are the input. Not yet processing. |
| Reader.MemoryReader.OfString | FileZilla3/trunk/src/engine/reader.cpp:379-395 | Start data and data are the input. Already processing with every slot ready. |
| Reader.MemoryReader.SignalCapacity | FileZilla3/trunk/src/engine/reader.cpp:350-363 | Counts the slot as ready. Copies the next `min(remaining, BufferSize)` bytes into it and consumes them. |
| Reader.MemoryReader.Read | FileZilla3/trunk/src/engine/reader.cpp:133-159 | Errors are sticky. Once processing, each call hands out the next chunk of at most `BufferSize` bytes, and empty buffers once the data is used up. The ready count stays at `N`. |
| Reader.MemoryReader.Open | FileZilla3/trunk/src/engine/reader.cpp:330-347 | Fails, changing nothing, when the offset is past the data. Otherwise the data from the offset on becomes the start data and every slot is ready. |
| Reader.MemoryReader.Rewind | FileZilla3/trunk/src/engine/reader.cpp:370-374 | Restores the data to the start data, so a second pass yields the same chunks. The ring is unchanged. |
| Reader.MemoryReader.Size | FileZilla3/trunk/src/engine/reader.cpp:365-368 | The reported size is never less than what is still to be read. |
| StringReaders.StringReader.constructor | FileZilla3/trunk/src/engine/string_reader.cpp:3-17 | The whole data, nothing skipped, no error. |
| StringReaders.StringReader.Read | FileZilla3/trunk/src/engine/string_reader.cpp:40-55 | Errors are sticky. Otherwise it returns and consumes the next `min(remaining, BufferSize)` bytes. The chunks of the remaining data are this buffer followed by the chunks still to come. At the end it returns `ok` with an empty buffer. |
| StringReaders.StringReader.Seek | FileZilla3/trunk/src/engine/string_reader.cpp:58-80 | `nosize` keeps the start offset. It succeeds iff the offset is within the data and `max_size` fits. Then the data is exactly `start_data[offset .. offset+size)`, with size `max_size` or the rest. On failure the error is set. `buffer_reader::seek` (121-160) follows the same rules. |
| Writer.TruncateAt | src/engine/writer.cpp:176-188 | The file opened at `offset` is exactly `offset` long. It is cut there, or zero-filled when it was shorter. |
| Writer.FileWriter.constructor | src/engine/writer.cpp:145-148 | A new writer for the existing file contents, with an empty ring and no worker. |
| Writer.FileWriter.SignalCapacity | src/engine/writer.cpp:241-244 | Wakes the worker once. |
| Writer.FileWriter.Submit | src/engine/writer.cpp:123-129 | The filled buffer goes to slot `(pos+count) mod N` and is appended to the queue. Capacity is signalled only on the 0→1 transition. |
| Writer.FileWriter.GetWriteBuffer | src/engine/writer.cpp:116-142 | Errors are sticky. A non-empty buffer filled after an `ok` is queued, and the caller's handle is reset. With a full ring the result is `wait`, with the handler waiting and processing cleared. Otherwise it hands out the next free slot, emptied. |
| Writer.FileWriter.Finalize | src/engine/writer.cpp:262-282 | Errors are sticky. The last non-empty buffer is queued. `ok` iff the ring is empty, and then the file is the opened file followed by every submitted buffer in order. Otherwise it returns `wait` with the handler waiting. |
| Writer.FileWriter.WriteOut | src/engine/writer.cpp:213-229 | Partial writes are repeated. The file grows by a prefix of the buffer. A failure sets the error iff the buffer was not completely written. |
| Writer.FileWriter.WorkerStep | src/engine/writer.cpp:198-239 | With nothing queued, a waiting handler is told and the loop ends. Otherwise the oldest buffer is written in full and retired, and the handler is notified. A failed write stops the worker with a sticky error. |
| Writer.FileWriter.WriteOldest | src/engine/writer.cpp:213-237 | Appends the oldest queued buffer to the file and takes it off the ring. |
| Writer.FileWriter.Retire | src/engine/writer.cpp:231-232 | Advances the ring start and drops the count. Processing keeps a free slot for the consumer. |
| Writer.FileWriter.NotifyHandler | src/engine/writer.cpp:234-237 | Exactly one event iff the handler was waiting. |
| Writer.FileWriter.Open | src/engine/writer.cpp:168-196 | Succeeds iff memory, the file, the seek and truncate (non-zero offset) and the thread succeed. The file is then the old file truncated at the offset: empty at offset 0. |
| Writer.FileWriter.Size | src/engine/writer.cpp:246-260 | Computed once and cached. A negative probe becomes `nosize`. |
| Writer.FileWriter.Close | src/engine/writer.cpp:155-166 | Quit is set, the worker stopped and every queued buffer dropped. The file is unchanged. |
| Text.ParseLeadingNumber | src/engine/ftp/filetransfer.cpp:305-322 | The digit-accumulating loop yields the value of the maximal leading run of decimal digits. |
| Text.ParseNumber | FileZilla3/trunk/src/engine/sftp/filetransfer.cpp:165-190 | A number is read iff every character is a decimal digit, and then it is that value. |
| Text.DecimalRoundTrip | FileZilla3/trunk/src/storj/fzstorj.cpp:17-38 | The decimal rendering of a number is non-empty and all digits, has no leading zero, and reads back as the number. |
| Transfer.NoLocalFile | src/engine/ftp/filetransfer.cpp:28-35 | An empty local file name is `CRITICALERROR\|NOTSUPPORTED` for an upload and `SYNTAXERROR` for a download. The SFTP and Storj operations (sftp/filetransfer.cpp:33-40, storj/file_transfer.cpp:22-29) share it. |
| Transfer.ServerTimeRoundTrip | src/engine/ftp/filetransfer.cpp:211 | The timezone adjustment of MDTM (added, line 333) and of MFMT (subtracted) cancel in both orders. |
| Transfer.ToServerTime | src/engine/ftp/filetransfer.cpp:211 | A local time shifted by the server's timezone offset, taken off for MFMT; `ServerTimeRoundTrip` proves it undoes `FromServerTime`. |
| Transfer.FromServerTime | src/engine/ftp/filetransfer.cpp:333 | A server time shifted by the offset, added for MDTM; `ServerTimeRoundTrip` proves it undoes `ToServerTime`. |
| FtpTransfer.ResumeSmallFile | src/engine/ftp/filetransfer.cpp:237-273 | A local file under 2 GiB never needs the resume test. |
| FtpTransfer.ResumeProbeOnlyWhenUnknown | src/engine/ftp/filetransfer.cpp:237-273 | A probe happens only when the local file is at least 2 GiB, the remote file is larger, and the bug of some size class is unknown. The probe offset `remote-1` lies past the local data. |
| FtpTransfer.ResumeEqualSizes | src/engine/ftp/filetransfer.cpp:237-273 | With equal sizes the transfer ends at once or proceeds. It is never probed or failed. |
| FtpTransfer.ResumeKnown4GBBug | src/engine/ftp/filetransfer.cpp:237-273 | A file of at least 4 GiB on a server known to have the 4 GiB bug fails when the sizes differ. |
| FtpTransfer.RecordProbeSettlesClass | src/engine/ftp/filetransfer.cpp:492-516 | The corrected recording stores the probe outcome under the size class whose unknown flag chose the probe. |
| FtpTransfer.RecordProbeAsWrittenMissesFourGiB | src/engine/ftp/filetransfer.cpp:495-512 | As written (strict `>`), a file of exactly 4 GiB is probed by the 4 GiB class but its outcome goes to the 2 GiB flag. The same download is then probed again. |
| FtpTransfer.CwdListsOnlyWhenNeeded | src/engine/ftp/filetransfer.cpp:357-416 | After CWD, a listing is requested iff the directory is uncached or the entry is unsure. A trusted case-matched entry skips SIZE. A case mismatch goes to SIZE. |
| FtpTransfer.ListNeverRepeats | src/engine/ftp/filetransfer.cpp:417-470 | After the listing, every answer leads to SIZE, MDTM or the resume test, never to a second listing. |
| FtpTransfer.MdtmOnlyWhenUseful | src/engine/ftp/filetransfer.cpp:367-458 | MDTM is chosen only for a download that preserves timestamps on a server known to support MDTM. |
| FtpTransfer.UploadVerb | src/engine/ftp/filetransfer.cpp:190-198 | APPE is used iff resuming while REST STREAM is not known to work. |
| FtpTransfer.ResumeCheck | src/engine/ftp/filetransfer.cpp:229-276 | The 4 GiB class decides first, then the 2 GiB class; its properties are `ResumeSmallFile`, `ResumeProbeOnlyWhenUnknown`, `ResumeEqualSizes` and `ResumeKnown4GBBug`. |
| FtpTransfer.RecordProbe | src/engine/ftp/filetransfer.cpp:492-516 | The corrected recording of a probe outcome, with the `>=` threshold of the probe; `RecordProbeSettlesClass` proves the probing class is settled. |
| FtpTransfer.RecordProbeAsWritten | src/engine/ftp/filetransfer.cpp:495-512 | The recording as written, with a strict `>`; `RecordProbeAsWrittenMissesFourGiB` shows the 4 GiB flag stays unknown. |
| FtpTransfer.AfterCwd | src/engine/ftp/filetransfer.cpp:357-400 | The state chosen from the cache after CWD; `CwdListsOnlyWhenNeeded` and `MdtmOnlyWhenUseful` state when it lists or asks MDTM. |
| FtpTransfer.AfterList | src/engine/ftp/filetransfer.cpp:417-460 | The state chosen from the cache after the listing; `ListNeverRepeats` proves it never lists again. |
| FtpTransfer.FtpFileTransfer.constructor | src/engine/ftp/filetransfer.cpp:15-20 | Binary mode is the negation of the ASCII flag. Sizes are unknown and nothing has been requested. |
| FtpTransfer.FtpFileTransfer.Send | src/engine/ftp/filetransfer.cpp:22-227 | An empty local name gives the no-local-file reply. Init records the local size, moves to `waitcwd` and requests CWD. SIZE, MDTM and MFMT send their command. A wait state is an error and changes nothing. In the resume-test and transfer states a download records whether the file existed; when no resume test or complete upload intervenes (`ReachesOpen`), the transfer is started (CONTINUE, `waittransfer`) exactly when the file opens, else the reply is an error. Offsets and the resume test are `StartTransfer`'s contract. The capabilities never change. |
| FtpTransfer.FtpFileTransfer.StartTransfer | src/engine/ftp/filetransfer.cpp:67-206 | A download resumes at the local size, after the resume test when one is due, and a probe starts at `remote-1`. An upload resume whose remote size equals the local size in binary mode ends with OK without a transfer (or goes to MFMT). An upload uses APPE with offset 0 unless REST STREAM is known. A failed open never starts the transfer; when no resume test or complete upload intervenes (`ReachesOpen`), an open file always does. |
| FtpTransfer.FtpFileTransfer.OpenAndSend | src/engine/ftp/filetransfer.cpp:165-205 | A failed open ends with an error and queues nothing. Otherwise the transfer command (RETR, or STOR/APPE as the resume and REST STREAM decide) is queued from the offset, and the state waits for the transfer. |
| FtpTransfer.FtpFileTransfer.TestResumeCapability | src/engine/ftp/filetransfer.cpp:229-276 | A no-op for uploads. For downloads the 4 GiB class is checked, then 2 GiB. Equal sizes give OK. A known bug with different sizes gives CRITICALERROR. An unknown bug with a larger remote file probes at `remote-1` in `waitresumetest`. |
| FtpTransfer.FtpFileTransfer.ParseResponse | src/engine/ftp/filetransfer.cpp:278-353 | A `213 ` SIZE reply sets the remote size to its leading digits, and SIZE becomes supported only if it was unknown. A failed SIZE means "missing" under the listed conditions. MDTM adopts a parsed time plus the server offset. MFMT's reply is OK. Any other state is an internal error. |
| FtpTransfer.FtpFileTransfer.SubcommandResult | src/engine/ftp/filetransfer.cpp:355-519 | After a CWD failure it sets `tryAbsolutePath` and goes to SIZE. It moves on from the cache lookup as `AfterCwd`/`AfterList` say, replying with the overwrite check's answer only when it goes to the resume test. A trusted case-matched entry gives its size, and its time when it has one; otherwise size and time stay. A transfer result is passed through, with MFMT after a good upload that preserves times. A failed probe records the bug and adds CRITICALERROR. A good probe records no bug and moves to `transfer`. |
| FtpTransfer.FtpFileTransfer.AdoptEntry | src/engine/ftp/filetransfer.cpp:380-383 | The cache entry's size is adopted, and its time when it has a date. |
| SftpTransfer.TransferLine | FileZilla3/trunk/src/engine/sftp/filetransfer.cpp:70-117 | A download is `get <remote> <local>` and an upload is `put <local> <remote>`, each preceded by `re` when resuming and ended by `\r\n`. |
| SftpTransfer.TransferLineShape | FileZilla3/trunk/src/engine/sftp/filetransfer.cpp:70-117 | The command starts with `re` iff resuming, then has the verb `get `/`put `, and ends with `\r\n`. |
| SftpTransfer.SftpListsAtMostOnce | FileZilla3/trunk/src/engine/sftp/filetransfer.cpp:208-265 | After CWD, a listing is requested iff the directory is uncached or the entry unsure, and a case mismatch goes to `mtime`. After the listing only `mtime` or `transfer` follow. |
| SftpTransfer.AfterCwd | FileZilla3/trunk/src/engine/sftp/filetransfer.cpp:208-249 | The state chosen from the cache after CWD; `SftpListsAtMostOnce` states when it lists. |
| SftpTransfer.AfterList | FileZilla3/trunk/src/engine/sftp/filetransfer.cpp:266-300 | The state chosen from the cache after the listing; `SftpListsAtMostOnce` proves it never lists again. |
| SftpTransfer.NumbersReply | FileZilla3/trunk/src/engine/sftp/filetransfer.cpp:356 | A sideband reply starts with `-`. |
| SftpTransfer.NumbersReplyOne | FileZilla3/trunk/src/engine/sftp/filetransfer.cpp:439-443 | A one-number reply is `-` followed by the number's decimal digits. |
| SftpTransfer.NumbersReplySpaced | FileZilla3/trunk/src/engine/sftp/filetransfer.cpp:356 | A sideband reply of any length is `-` followed by the numbers in decimal, in order, separated by single spaces. |
| SftpTransfer.NumbersReplyTwo | FileZilla3/trunk/src/engine/sftp/filetransfer.cpp:375 | The two-number reply is `-<a> <b>`. |
| SftpTransfer.SftpFileTransfer.constructor | FileZilla3/trunk/src/engine/sftp/filetransfer.cpp:13-21 | A new operation is in `init` with unknown sizes, no reader or writer, nothing sent. |
| SftpTransfer.SftpFileTransfer.Send | FileZilla3/trunk/src/engine/sftp/filetransfer.cpp:29-142 | An empty local name gives the no-local-file reply. Init moves to `waitcwd` and requests CWD. `transfer` streams the transfer line, or gives ERROR when the remote name has no server encoding. `mtime` sends its command. `chmtime` is an internal error for downloads; for uploads it sends the file time minus the offset. The wait states are internal errors. |
| SftpTransfer.SftpFileTransfer.ParseResponse | FileZilla3/trunk/src/engine/sftp/filetransfer.cpp:144-204 | An all-digit mtime reply sets the file time to seconds plus the offset. Either way the next state is `transfer`, through the overwrite check. The transfer result is passed on, with `chmtime` after a good upload that preserves times. `chmtime` is an internal error for downloads. Other states are internal errors. |
| SftpTransfer.SftpFileTransfer.SubcommandResult | FileZilla3/trunk/src/engine/sftp/filetransfer.cpp:206-322 | After a CWD failure it sets `tryAbsolutePath` and goes to `mtime`. The cache answer moves the operation as `AfterCwd`/`AfterList` say, replying with the overwrite check's answer only when it goes to `transfer`. A trusted case-matched entry gives its size, and its time when it has one; otherwise size and time stay. Other states are internal errors. |
| SftpTransfer.SftpFileTransfer.AdoptEntry | FileZilla3/trunk/src/engine/sftp/filetransfer.cpp:236-241 | The cache entry's size is adopted, and its time when it has a date. |
| SftpTransfer.SftpFileTransfer.OnOpenRequested | FileZilla3/trunk/src/engine/sftp/filetransfer.cpp:324-379 | Replies `-0\n` when a reader or writer is already open, and `-1\n` for a resume download of unknown local size. It replies `--\n` when opening fails. Otherwise it opens and replies with the handle and size numbers. |
| SftpTransfer.SftpFileTransfer.OnNextBufferRequested | FileZilla3/trunk/src/engine/sftp/filetransfer.cpp:381-411 | `wait` writes nothing. An error, or neither reader nor writer, writes `--1\n`. `ok` writes `-<offset> <size>\n`. |
| SftpTransfer.SftpFileTransfer.OnFinalizeRequested | FileZilla3/trunk/src/engine/sftp/filetransfer.cpp:413-427 | Sets `finalizing`. Replies `-1\n` on `ok`, `-0\n` on error and nothing on `wait`. |
| SftpTransfer.SftpFileTransfer.OnWriterEvent | FileZilla3/trunk/src/engine/sftp/filetransfer.cpp:459-467 | While finalizing, a writer event retries `finalize`. Otherwise it retries the buffer request. |
| SftpTransfer.SftpFileTransfer.OnSizeRequested | FileZilla3/trunk/src/engine/sftp/filetransfer.cpp:429-444 | The size is the reader's, else the writer's, else unknown. Unknown is reported as `--1\n`, a known size as `-<size>\n`. |
| StorjTransfer.CommandLine | FileZilla3/trunk/src/engine/storj/file_transfer.cpp:113-130 | The helper command is `get <remote> <local>` for downloads and `put <local> <remote>` for uploads. Its length and both name fields are exact. |
| StorjTransfer.ListingAgreesWithSftp | FileZilla3/trunk/src/engine/storj/file_transfer.cpp:56-88 | A listing is requested exactly for an unsure entry or an uncached directory, the same cases in which SFTP lists after CWD. |
| StorjTransfer.StorjFileTransfer.constructor | FileZilla3/trunk/src/engine/storj/file_transfer.cpp:8-15 | A new operation is in `init` with unknown sizes and nothing requested. |
| StorjTransfer.StorjFileTransfer.Send | FileZilla3/trunk/src/engine/storj/file_transfer.cpp:17-137 | An empty local name gives the no-local-file reply. The bucket root is `CRITICALERROR\|NOTSUPPORTED`. Init adopts the size, and the time when it has one, only from a trusted case-matched entry (otherwise both stay) and lists only when `NeedsListing`. A non-OK overwrite check goes to `waitfileexists`, which always continues to `transfer`. `transfer` sends the command at offset 0. Delete is an internal error. |
| StorjTransfer.StorjFileTransfer.ParseResponse | FileZilla3/trunk/src/engine/storj/file_transfer.cpp:139-147 | Only the transfer reply is the result. In any other state it is an internal error. |
| StorjTransfer.StorjFileTransfer.SubcommandResult | FileZilla3/trunk/src/engine/storj/file_transfer.cpp:149-178 | After the listing it moves to `checkfileexists` whatever the result. It adopts a case-matched entry's size, and its time when it has one, only after a good listing; otherwise both stay. Unknown states are internal errors. |
| StorjTransfer.StorjFileTransfer.AdoptEntry | FileZilla3/trunk/src/engine/storj/file_transfer.cpp:159-165 | The entry's size is adopted, and its time when it has a date. |
| Lookup.LookupOp.constructor | src/engine/lookup.cpp:11-23 | The caller's entry is cleared. The operation starts in `init`. |
| Lookup.LookupOp.Send | src/engine/lookup.cpp:25-76 | An empty path or file name is an internal error. Otherwise the cache is queried, allowing outdated entries after the listing. The result is OK iff the cache settles the question (a usable entry, copied out, or a known directory without the file). An unsettled `init` asks for one listing. An unsettled `list` is an error. |
| Lookup.LookupOp.ParseResponse | FileZilla3/trunk/src/engine/lookup.h:12 | A lookup has no reply of its own: parsing one is an internal error. |
| Lookup.LookupOp.SubcommandResult | src/engine/lookup.cpp:78-90 | A successful listing continues (re-runs `Send`). A failed listing's code is passed on. In `init` it is an internal error. |
| Server.Info | src/engine/server.cpp:39-48 | The table entry of a protocol is the one for that protocol, and its prefix is lower-case. |
| Server.FirstWithPort | src/engine/server.cpp:763-767 | The first table entry from `i` on whose default port is `port`, or none. No earlier entry has it. |
| Server.ProtocolFromPort | src/engine/server.cpp:761-774 | The ports 21, 22, 80, 443 and 990 give a protocol whose default port they are. Any other port gives UNKNOWN with `defaultOnly`, else FTP. |
| Server.GetProtocolFromPort | src/engine/server.cpp:761-774 | The table loop returns what `ProtocolFromPort` specifies. |
| Server.PortOfProtocol | src/engine/server.cpp:754-774 | A protocol's default port maps back to that protocol. Port 21 maps to FTP, the first of its three protocols. |
| Server.ProtocolFromPrefix | src/engine/server.cpp:830-838 | A recognised prefix is the table prefix of the protocol, compared without case. |
| Server.PrefixOfProtocol | src/engine/server.cpp:830-845 | Every protocol's prefix maps back to it, except INSECURE_FTP, which shares `ftp` with FTP. |
| Server.PostLoginAgrees | src/engine/server.cpp:825-828 | The table's post-login column agrees with `SupportsPostLoginCommands` (the FTP family). |
| Server.LogonTypeFromName | src/engine/server.cpp:882-896 | A name maps to a non-anonymous type only if it is that type's name. Anything else is ANONYMOUS. |
| Server.NameFromLogonType | src/engine/server.cpp:898-917 | The untranslated name of each logon type; `LogonNameRoundTrip` proves `GetLogonTypeFromName` reads it back. |
| Server.LogonNameRoundTrip | src/engine/server.cpp:882-917 | `GetLogonTypeFromName(GetNameFromLogonType(t)) == t` for every logon type. |
| Server.RanksInjective | src/engine/server.cpp:367-458 | The enumeration values compared by `operator<` differ for different protocols, logon types and encodings. |
| Server.Trim | src/engine/server.cpp:128-130 | Trimming leaves no whitespace at either end. It is empty iff the text is all whitespace, and already-trimmed text is unchanged. |
| Server.ToLong | src/engine/server.cpp:180 | Digits parse to their value, and non-empty digit text always parses. |
| Server.PortFromText | src/engine/server.cpp:55-71 | An empty port text is port 0 (none given). A non-empty one must trim to at most 5 characters and give 1..65535. Digit text in range gives its value. |
| Server.FindText | src/engine/server.cpp:82 | The first occurrence of the separator, or none. |
| Server.SchemeStage | src/engine/server.cpp:82-95 | Without `://` the text and protocol stay. Otherwise the rest follows the separator, and the stage succeeds iff the prefix (with `fz_` stripped) names a protocol. |
| Server.UserLimit | src/engine/server.cpp:104-106 | The first `/` after the first `@`, or the end. |
| Server.UserEnd | src/engine/server.cpp:97-117 | The user part ends at the last `@` before the first `/` that follows the first `@`. |
| Server.FindUserEnd | src/engine/server.cpp:108-116 | The `next_at` loop finds exactly `UserEnd`. |
| Server.CredentialsAt | src/engine/server.cpp:118-135 | The user part splits at its first `:` into user (trimmed, must be non-empty) and password. The host is what follows the `@`. |
| Server.DefaultCredentials | src/engine/server.cpp:137-146 | Without user info, an empty user becomes `anonymous`/`anonymous@example.com` unless the logon type is ASK or INTERACTIVE. |
| Server.ExplicitPort | src/engine/server.cpp:173-186 | A port separator at position 0 is "no host". A parsed port is in 1..65535 and the host is the text before it. |
| Server.DefaultedPort | src/engine/server.cpp:187-194 | Without a port in the text, port 0 becomes the protocol default, and a port above 65535 is an error. |
| Server.SplitPort | src/engine/server.cpp:154-194 | A parsed port is in 1..65535 and the host is a prefix of the text. `[` without `]` is NoClosingBracket, text after `]` other than `:` is JunkAfterBracket, and a leading `:` is NoHost. |
| Server.StripBrackets | src/engine/server.cpp:204-208 | A host starting with `[` loses its first and last character. Others are kept. |
| Server.ResultLogon | src/engine/server.cpp:214-224 | ASK and INTERACTIVE stay. Otherwise the result is ANONYMOUS iff the user is empty, or is `anonymous` with an empty or default password, and NORMAL otherwise. |
| Server.HostStage | src/engine/server.cpp:148-228 | A parsed result has a port in 1..65535 and the credentials of the user stage. Its logon type follows `ResultLogon`, and the protocol is kept or inferred from the port. The path is absent exactly when no `/` follows the user part; otherwise it is the text from the first `/`. |
| Server.PlainHostWithPath | src/engine/server.cpp:148-151 | `host/p` with a plain host parses to that host with the given or default port and the path `/p`. |
| Server.NoSlashNoPath | src/engine/server.cpp:148-151 | Text with no `/` never yields a path. |
| Server.Parse | src/engine/server.cpp:73-230 | An empty host fails. A parsed result has a valid port and a known protocol. Without `@` and with an empty user the result is anonymous, and with empty hosts refused a parsed host is non-empty. The parser's refusals of bad text are stated on `ParseUrlValue`, which is `Parse` with empty hosts refused, by the `...Fails` lemmas. |
| Server.AfterScheme | src/engine/server.cpp:97-228 | After the scheme, a parsed result has a valid port, a known protocol and the logon type `ResultLogon` gives. Without `@` and with an empty user it is anonymous, and a host is required when empty hosts are refused. |
| Server.ParseUrlAsWritten | src/engine/server.cpp:73-230 | The parser as written: like `Parse`, but a host reduced to nothing by the bracket strip is accepted. An empty input still fails. |
| Server.ParseUrlValue | src/engine/server.cpp:73-230 | The corrected parser: an empty text fails, a parsed host is never empty, the port is in 1..65535 and the protocol is known. Its failures for each kind of bad text are the `...Fails` lemmas below. |
| Server.NoSlashNoScheme | src/engine/server.cpp:82-95 | Text without `/` cannot hold `://`, so the protocol field stays. |
| Server.SchemeSelects | src/engine/server.cpp:82-95 | `name://rest` continues with `rest`, and the protocol the lower-cased name (without `fz_`) selects. |
| Server.KnownScheme | src/engine/server.cpp:82-95 | A protocol's prefix before `://` selects that protocol. |
| Server.KnownFzScheme | src/engine/server.cpp:86-88 | The same prefix behind `fz_` selects the same protocol. |
| Server.UnknownSchemeFails | src/engine/server.cpp:89-94 | An unknown scheme fails with the protocol UNKNOWN. |
| Server.PlainHostParses | src/engine/server.cpp:148-228 | A plain host name parses to itself, with the given or default port and the default credentials. |
| Server.NoSchemeNoUser | src/engine/server.cpp:137-146 | Text without `/` and `@` goes straight to the host stage with the default credentials. |
| Server.SplitPlainPort | src/engine/server.cpp:172-186 | `host:n` with a plain host splits into the host and `n`. |
| Server.PlainHostWithPort | src/engine/server.cpp:172-186 | A plain host with `:n` parses to the host and port `n`, whatever port was given separately. |
| Server.HostStageParsed | src/engine/server.cpp:196-228 | When splitting and trimming leave a non-empty name, the host stage yields it with the inferred protocol. |
| Server.SplitBracketed | src/engine/server.cpp:154-170 | `[address]` has no port of its own and loses its brackets. |
| Server.SplitBracketedPort | src/engine/server.cpp:154-186 | `[address]:n` splits after the `]` with port `n`. |
| Server.BracketedHostParses | src/engine/server.cpp:154-208 | An IPv6 literal in brackets parses to the bare address. |
| Server.BracketedHostWithPort | src/engine/server.cpp:154-208 | `[address]:n` parses to the bare address and port `n`. |
| Server.UserEndBeforePath | src/engine/server.cpp:104-117 | An `@` in the path does not end the user part. |
| Server.NoSchemeParse | src/engine/server.cpp:97-228 | Without `/`, parsing is the user stage followed by the host stage. |
| Server.UserInfoStage | src/engine/server.cpp:118-126 | `user:password@host` splits at the first `:` and the last `@`. The password may contain `:` and `@`. |
| Server.UserInfoParses | src/engine/server.cpp:97-228 | `user:password@host` parses to that host, user and password, with the resulting logon type. |
| Server.EmptyBracketsAccepted | src/engine/server.cpp:154-208 | As written, `[]` parses: the brackets are stripped and the host is left empty. |
| Server.EmptyBracketsRefused | src/engine/server.cpp:199-208 | The corrected parser refuses `[]` for want of a host. |
| Server.UnclosedBracketFails | src/engine/server.cpp:154-160 | `[address` without `]` fails with NoClosingBracket, and the protocol stays. |
| Server.JunkAfterBracketFails | src/engine/server.cpp:161-165 | `[address]` followed by any text not starting with `:` fails with JunkAfterBracket. |
| Server.LeadingColonFails | src/engine/server.cpp:172-177 | A host text starting with `:` (a port and no host) fails with NoHost. |
| Server.BlankUserFails | src/engine/server.cpp:118-135 | `user@host` whose user is blank after trimming fails with a bad user. |
| Server.BlankUserWithPasswordFails | src/engine/server.cpp:118-135 | `:password@host` (a blank user before the first `:`) fails with a bad user, whatever the password. |
| ServerData.Compare | src/engine/server.cpp:367-458 | Three-way string comparison: 0 iff equal. |
| ServerData.CompareAntisymmetric | src/engine/server.cpp:367-458 | Swapping the operands negates the comparison. |
| ServerData.CompareTransitive | src/engine/server.cpp:367-458 | The comparison is transitive. |
| ServerData.Equal | src/engine/server.cpp:311-365 | `operator==` field by field; `EqualEquivalence` and `EqualIgnores` prove it an equivalence that ignores the limit, the name and anonymous credentials. |
| ServerData.Less | src/engine/server.cpp:367-458 | `operator<`, first differing field decides; `LessIrreflexive`, `LessAsymmetric`, `EqualNotLess` and `LessIgnores` state its order properties. |
| ServerData.EqualsNoPass | src/engine/server.cpp:465-505 | Equality blind to password and key file; `EqualImpliesEqualsNoPass` and `EqualsNoPassIgnoresPass` relate it to `==`. |
| ServerData.EqualEquivalence | src/engine/server.cpp:311-365 | `operator==` is reflexive, symmetric and transitive. |
| ServerData.EqualIgnores | src/engine/server.cpp:311-365 | `==` never compares the connection limit or the name, and ignores the credentials of ANONYMOUS servers. |
| ServerData.LessIrreflexive | src/engine/server.cpp:367-458 | `operator<` is false when all compared fields are equal. |
| ServerData.LessAsymmetric | src/engine/server.cpp:367-458 | `a < b` excludes `b < a`. |
| ServerData.EqualNotLess | src/engine/server.cpp:311-458 | Equal servers are not ordered either way. |
| ServerData.LessIgnores | src/engine/server.cpp:367-458 | Unlike `==`, `operator<` ignores the key file and the post-login commands. |
| ServerData.KeyFileUnordered | src/engine/server.cpp:311-458 | Two KEY servers differing only in the key file are unequal, yet neither is less than the other. |
| ServerData.EqualImpliesEqualsNoPass | src/engine/server.cpp:465-505 | `==` implies `EqualsNoPass`. |
| ServerData.EqualsNoPassIgnoresPass | src/engine/server.cpp:465-505 | `EqualsNoPass` ignores the password, and any change between logon types that carry no account. `==` does not. |
| ServerData.GetUser | src/engine/server.cpp:252-259 | ANONYMOUS gives `anonymous`, other types the stored user. |
| ServerData.GetPass | src/engine/server.cpp:261-268 | ANONYMOUS gives `anon@localhost`, other types the stored password. |
| ServerData.GetAccount | src/engine/server.cpp:270-277 | The account only under ACCOUNT, else empty. |
| ServerData.GetKeyFile | src/engine/server.cpp:279-286 | The key file only under KEY, else empty. |
| ServerData.BracketedName | src/engine/server.cpp:651-653 | `Format` re-adds brackets to any host containing `:`. |
| ServerData.HostWithPort | src/engine/server.cpp:659-661 | The port is shown iff it is not the protocol default. |
| ServerData.SchemePart | src/engine/server.cpp:691-699 | The scheme is empty or the protocol prefix with `://`. URL formats of a known protocol always carry it. |
| ServerData.FormatShowsUser | src/engine/server.cpp:667-688 | With the intended escaping, the URL format shows the user escaped once before `@`, and the user-and-port format shows it unescaped. Both are followed by the host with its optional port. |
| ServerData.UrlHasScheme | src/engine/server.cpp:697-699 | The URL format of a known protocol starts with its prefix and `://`. |
| ServerData.UrlUserEncodedTwice | src/engine/server.cpp:672-686 | As written, the URL format encodes the user twice (lines 673 and 686). Wherever encoding is not idempotent this differs from the intended output. |
| ServerData.UserFormatEncoded | src/engine/server.cpp:667-688 | As written, the user-and-port format escapes the user too (line 686), although the comment at 668 limits escaping to URLs. |
| ServerData.FormatAsWritten | src/engine/server.cpp:645-702 | `Format` as written, with the second escape of the user; `UrlUserEncodedTwice` and `UserFormatEncoded` show its effect. |
| ServerData.FormatValue | src/engine/server.cpp:645-702 | `Format` with the user escaped once; `FormatShowsUser`, `UrlHasScheme` and the round-trip lemmas state what it produces. |
| ServerData.FormatParseRoundTrip | src/engine/server.cpp:645-702 | Parsing the host-with-optional-port format of a plain or bracketed host gives back its host and port. |
| ServerData.PlainRoundTrip | src/engine/server.cpp:651-661 | A plain host formatted with its port parses back to the same host and port. |
| ServerData.BracketedRoundTrip | src/engine/server.cpp:204-208 | An IPv6 host is bracketed by `Format` and unbracketed by `ParseUrl`: the round trip keeps host and port. |
| ServerData.BracketedDefaultRoundTrip | src/engine/server.cpp:651-661 | `[address]` with the default port round-trips. |
| ServerData.BracketedPortRoundTrip | src/engine/server.cpp:651-661 | `[address]:n` with a non-default port round-trips. |
| ServerData.ServerEntry.constructor | src/engine/server.cpp:50-53 | A new server holds the defaults of `Initialize` (704-720). |
| ServerData.ServerEntry.WithCredentials | src/engine/server.cpp:507-518 | The given protocol, type, host, port, user, password and account, with logon type NORMAL. |
| ServerData.ServerEntry.WithHost | src/engine/server.cpp:520-527 | The given protocol, type, host and port, other fields default. |
| ServerData.ServerEntry.SetType | src/engine/server.cpp:529-532 | Only the server type changes. |
| ServerData.ServerEntry.SetLogonType | src/engine/server.cpp:539-543 | Only the logon type changes. |
| ServerData.ServerEntry.SetProtocol | src/engine/server.cpp:545-553 | The protocol changes, and the post-login commands are dropped when it does not support them. Afterwards commands are only held by a protocol that supports them. |
| ServerData.ServerEntry.SetHost | src/engine/server.cpp:555-570 | Succeeds iff the host is non-empty and the port is in 1..65535, else nothing changes. An unknown protocol is inferred from the port. |
| ServerData.ServerEntry.SetUser | src/engine/server.cpp:572-588 | ANONYMOUS ignores the call. An empty user is rejected unless the type is ASK or INTERACTIVE. An empty user clears the password. |
| ServerData.ServerEntry.SetAccount | src/engine/server.cpp:590-598 | Acts, and succeeds, only under ACCOUNT. |
| ServerData.ServerEntry.SetKeyFile | src/engine/server.cpp:600-608 | Acts, and succeeds, only under KEY. |
| ServerData.ServerEntry.SetTimezoneOffset | src/engine/server.cpp:610-618 | Accepts only offsets of at most 1440 minutes in magnitude, else nothing changes. |
| ServerData.ServerEntry.SetPasvMode | src/engine/server.cpp:630-633 | Only the passive mode changes. |
| ServerData.ServerEntry.SetMaximumMultipleConnections | src/engine/server.cpp:635-638 | Only the limit changes, and the server stays `==` to what it was. |
| ServerData.ServerEntry.SetEncodingType | src/engine/server.cpp:722-731 | A custom encoding needs a name, else nothing changes. |
| ServerData.ServerEntry.SetCustomEncoding | src/engine/server.cpp:733-742 | A non-empty name switches to that custom encoding. An empty name changes nothing. |
| ServerData.ServerEntry.SetPostLoginCommands | src/engine/server.cpp:814-823 | Stored iff the protocol supports them, else cleared. |
| ServerData.ServerEntry.SetBypassProxy | src/engine/server.cpp:847-850 | Only the proxy flag changes. |
| ServerData.ServerEntry.ParseUrl | src/engine/server.cpp:73-230 | The result is `ParseUrlValue`. A failure leaves every field except the type and the protocol. A success stores host, port, user, password, logon type and protocol and clears the account. |
| ServerData.ServerEntry.SetAddress | src/engine/server.cpp:204-210 | Only protocol, host and port change. |
| ServerData.ServerEntry.SetCredentials | src/engine/server.cpp:211-224 | Only user, password and logon type change, and the account is cleared. |
| ServerData.ServerEntry.ParseUrlText | src/engine/server.cpp:55-71 | A bad port text fails with nothing changed. Otherwise it parses with the numeric port. |
| ServerData.ParseStages | src/engine/server.cpp:73-230 | The stage-by-stage parse computes `ParseUrlValue`. |
| Options.Set | FileZilla3/trunk/src/engine/optionsbase.cpp:362-371 | The word vector grows to hold the option's word if needed. Every other word is kept. |
| Options.Unset | FileZilla3/trunk/src/engine/optionsbase.cpp:372-380 | The word vector keeps its length, and every other word is kept. |
| Options.Intersect | FileZilla3/trunk/src/engine/optionsbase.cpp:391-400 | `&=` shrinks to the shorter vector and intersects word by word. |
| Options.SetTest | FileZilla3/trunk/src/engine/optionsbase.cpp:362-390 | After `set(opt)`, `test(opt)` holds, and every other option tests as before. |
| Options.UnsetTest | FileZilla3/trunk/src/engine/optionsbase.cpp:372-390 | After `unset(opt)`, `test(opt)` fails, and every other option tests as before. |
| Options.IntersectTest | FileZilla3/trunk/src/engine/optionsbase.cpp:381-400 | An option is in `a &= op` iff it is in both. |
| Options.NonEmptyTest | FileZilla3/trunk/src/engine/optionsbase.cpp:351-360 | A set is non-empty iff some option tests true in it. |
| Options.Any | FileZilla3/trunk/src/engine/optionsbase.cpp:351-360 | The word loop of `any` returns exactly whether the set is non-empty. |
| Options.IntersectWith | FileZilla3/trunk/src/engine/optionsbase.cpp:391-400 | The resize-and-mask loop computes `Intersect`. |
| Options.IntRoundTrip | FileZilla3/trunk/src/engine/optionsbase.cpp:279-280 | Reading back the decimal text that a number write stores gives the same number. |
| Options.Initial | FileZilla3/trunk/src/engine/optionsbase.cpp:98-110 | A filled-in default is not marked as coming from the defaults, and its number is the text read as an integer. |
| Options.ApplyNumber | FileZilla3/trunk/src/engine/optionsbase.cpp:246-282 | The flags refuse, an out-of-range value is refused unless clamping is on, and the value is clamped. A stored value records where it came from, and it counts as changed iff the number differs. A changed number also gets its decimal text. |
| Options.ApplyString | FileZilla3/trunk/src/engine/optionsbase.cpp:284-321 | The flags and the length limit refuse. A stored value records where it came from, and it counts as changed iff the text differs. A changed text also sets its number. Without a validator the stored text is the value. |
| Options.ApplyXml | FileZilla3/trunk/src/engine/optionsbase.cpp:323-340 | The flags and the validator refuse. A stored document always counts as a change and leaves the text, the number and the origin alone. |
| Options.IntOutcome | FileZilla3/trunk/src/engine/optionsbase.cpp:167-188 | The outcome of `set(opt, int)` by option type; `OutcomeConsistent` proves it keeps text and number in step. |
| Options.StringOutcome | FileZilla3/trunk/src/engine/optionsbase.cpp:190-211 | The outcome of `set(opt, text)` by option type; `OutcomeConsistent` proves it keeps text and number in step. |
| Options.XmlOutcome | FileZilla3/trunk/src/engine/optionsbase.cpp:213-244 | The outcome of `set(opt, xml)`, refused for non-XML options; covered by `OutcomeConsistent`. |
| Options.NumberConsistent | FileZilla3/trunk/src/engine/optionsbase.cpp:279-280 | A numeric write keeps the text and the number in agreement. |
| Options.OutcomeConsistent | FileZilla3/trunk/src/engine/optionsbase.cpp:167-341 | No write of any kind breaks the agreement of text and number. |
| Options.RewriteIsNoChange | FileZilla3/trunk/src/engine/optionsbase.cpp:273-276 | Writing an option's current in-range number back stores nothing new and signals no change. |
| Options.Filled | FileZilla3/trunk/src/engine/optionsbase.cpp:89-111 | Existing values are kept, and every missing one is the option's initial value. |
| Options.FindWatcher | FileZilla3/trunk/src/engine/optionsbase.cpp:433-438 | The first watcher with that handler, or -1 when there is none. |
| Options.SwapRemove | FileZilla3/trunk/src/engine/optionsbase.cpp:476-478 | Moving the last watcher into the gap removes exactly one entry and keeps all the others. |
| Options.SwapRemoveUnique | FileZilla3/trunk/src/engine/optionsbase.cpp:476-478 | Removing keeps handlers unique and leaves no entry for the removed handler. |
| Options.Deliveries | FileZilla3/trunk/src/engine/optionsbase.cpp:416-425 | Each delivery goes to a watcher, is non-empty, and holds only changed options that the watcher watches (or all of them for a watch-all). `DeliveriesInOrder` states that nothing else is left out. |
| Options.Delivered | FileZilla3/trunk/src/engine/optionsbase.cpp:416-423 | The positions, in increasing order, of exactly the watchers whose share (`Share`: all changed options for a watch-all, else the changed options it watches) is non-empty. |
| Options.DeliveriesInOrder | FileZilla3/trunk/src/engine/optionsbase.cpp:416-423 | The deliveries are, in watcher order, exactly the pairs of handler and share for the watchers whose share is non-empty: one per such watcher, none for the others. |
| Options.WatchThenTest | FileZilla3/trunk/src/engine/optionsbase.cpp:427-445 | After `watch`, handlers stay unique and the handler's entry watches the option. |
| Options.OptionsStore.constructor | FileZilla3/trunk/src/engine/optionsbase.cpp:76-87 | An empty store: no options, values, changes, notifications or watchers. |
| Options.OptionsStore.RegisterOptions | FileZilla3/trunk/src/engine/optionsbase.cpp:76-87 | The definitions are appended, and the old count is returned. Every new name maps to its new index, and names not re-registered keep their old index. |
| Options.OptionsStore.AddMissing | FileZilla3/trunk/src/engine/optionsbase.cpp:89-111 | The values become `Filled`: every option has a value, and existing values are untouched. |
| Options.OptionsStore.GetInt | FileZilla3/trunk/src/engine/optionsbase.cpp:114-124 | An invalid index gives 0 and changes nothing. Otherwise missing values are filled and the option's number is returned. |
| Options.OptionsStore.GetString | FileZilla3/trunk/src/engine/optionsbase.cpp:126-136 | An invalid index gives the empty text. Otherwise the values are filled and the option's text is returned. |
| Options.OptionsStore.GetXml | FileZilla3/trunk/src/engine/optionsbase.cpp:138-153 | An invalid index gives an empty document. Otherwise the values are filled and the option's document is returned. |
| Options.OptionsStore.FromDefault | FileZilla3/trunk/src/engine/optionsbase.cpp:155-165 | An invalid index gives false. Otherwise the values are filled and the option's origin is returned. |
| Options.OptionsStore.SetChanged | FileZilla3/trunk/src/engine/optionsbase.cpp:342-349 | The option joins the changed set, and a notification is requested only when the set was empty before. |
| Options.OptionsStore.Commit | FileZilla3/trunk/src/engine/optionsbase.cpp:246-341 | A stored outcome replaces the value. Only a change marks the option and may notify. |
| Options.OptionsStore.SetInt | FileZilla3/trunk/src/engine/optionsbase.cpp:167-188 | An invalid index changes nothing. Otherwise values are filled and the write follows the option's type through `IntOutcome`. A stored change marks the option changed, and requests one notification when notifying is allowed and nothing was pending. |
| Options.OptionsStore.SetString | FileZilla3/trunk/src/engine/optionsbase.cpp:190-211 | As `SetInt`, through the text conversions of each type: an invalid index changes nothing, and a stored change marks the option and requests one notification when nothing was pending. |
| Options.OptionsStore.SetXml | FileZilla3/trunk/src/engine/optionsbase.cpp:213-244 | As `SetInt`, for XML options only: an invalid index changes nothing, and a stored change marks the option and requests one notification when nothing was pending. |
| Options.OptionsStore.ContinueNotifyChanged | FileZilla3/trunk/src/engine/optionsbase.cpp:401-425 | Nothing changed means no deliveries. Otherwise the changed set is taken and cleared, and every watcher gets its `Deliveries` share. |
| Options.OptionsStore.Watch | FileZilla3/trunk/src/engine/optionsbase.cpp:427-445 | A null handler, missing notifier or invalid option changes nothing. Otherwise the handler's entry gains the option, or a new entry is appended. |
| Options.OptionsStore.WatchAll | FileZilla3/trunk/src/engine/optionsbase.cpp:446-464 | The handler's entry is marked all, or a new all-entry is appended. |
| Options.OptionsStore.Unwatch | FileZilla3/trunk/src/engine/optionsbase.cpp:465-483 | The option leaves the handler's set. An entry left watching nothing is swap-removed. |
| Options.OptionsStore.UnwatchAll | FileZilla3/trunk/src/engine/optionsbase.cpp:484-497 | The handler's entry is swap-removed, and afterwards no entry has that handler. |
| Options.OptionsStore.IndexOfHandler | FileZilla3/trunk/src/engine/optionsbase.cpp:433-438 | The search loop finds `FindWatcher`. |
| Version.Step | FileZilla3/trunk/src/engine/version.cpp:72-85 | A character never lowers the separator count. |
| Version.CString | FileZilla3/trunk/src/engine/version.cpp:71 | The characters the loop visits: the longest prefix before the first NUL. |
| Version.ConvertToVersionNumber | FileZilla3/trunk/src/engine/version.cpp:40-96 | A null string, an empty one, or one not starting with a digit gives -1. Otherwise the loop computes `VersionNumber` of the C string. |
| Version.VersionNumber | FileZilla3/trunk/src/engine/version.cpp:40-96 | The packed number of a version string; `PlainFinal`, `PlainRc`, `PlainBeta` and `FinalAbovePrerelease` state its values and order. |
| Version.Advance | FileZilla3/trunk/src/engine/version.cpp:72-85 | One loop iteration updates `v`, `segment` and `shifts` as `Step` says. |
| Version.FinalRelease | FileZilla3/trunk/src/engine/version.cpp:52-55 | `A.B.C` packs A, B and C into the bits 50, 40 and 30 upward and sets the final-release bit `0x80000`. |
| Version.ReleaseCandidate | FileZilla3/trunk/src/engine/version.cpp:52-55 | `A.B.C-rcE` with 0 < E < 512 packs the base and puts E just above the ten beta bits, without the final bit. |
| Version.Beta | FileZilla3/trunk/src/engine/version.cpp:52-55 | `A.B.C-betaF` with 0 < F < 1024 packs the base and puts F in the ten lowest bits. |
| Version.PlainFinal | FileZilla3/trunk/src/engine/version.cpp:86-93 | A base of digits and at most three dots (one to four components) leaves the twenty low bits clear and gets the final-release bit. |
| Version.PlainRc | FileZilla3/trunk/src/engine/version.cpp:72-93 | For any such base, `-rcE` with 0 < E < 512 gives the base's number without the final bit, plus E times 1024. |
| Version.PlainBeta | FileZilla3/trunk/src/engine/version.cpp:72-93 | For any such base, `-betaF` with 0 < F < 1024 gives the base's number without the final bit, plus F. |
| Version.FinalAbovePrerelease | FileZilla3/trunk/src/engine/version.cpp:90-93 | For every base of one to four components: the final release ranks above each rc (0 < E < 512) and each beta (0 < F < 1024), and each rc ranks above each beta. |
| Version.DocumentedExample | FileZilla3/trunk/src/engine/version.cpp:57-60 | `2.2.26-beta3` converts to 2254026754228227, as the comment promises. |
| CertStore.Without | src/commonui/cert_store.cpp:96-99 | `remove_if` plus `erase` keeps exactly the certificates not for `host:port`. A list with none for it is unchanged. |
| CertStore.Store.constructor | src/commonui/cert_store.cpp:1-179 | An empty store, which satisfies the trusted/insecure exclusion. |
| CertStore.Store.DoIsTrusted | src/commonui/cert_store.cpp:54-81 | True iff the data is non-empty and some certificate has the port and the bytes, and either the host or (for a DNS name with SANs allowed) a trust-all-names flag. |
| CertStore.Store.IsTrusted | src/commonui/cert_store.cpp:83-91 | Trusted permanently, or (unless `permanentOnly`) for the session. |
| CertStore.Store.IsTrustedSession | src/commonui/cert_store.cpp:5-17 | Never with algorithm warnings. Otherwise the session's first certificate is trusted in either tier, SANs allowed iff the hostname matched. |
| CertStore.Store.IsInsecure | src/commonui/cert_store.cpp:19-33 | Insecure permanently, or (unless `permanentOnly`) for the session. |
| CertStore.Store.HasCertificate | src/commonui/cert_store.cpp:35-52 | True iff either tier holds a certificate for `host:port`. |
| CertStore.Store.SetInsecure | src/commonui/cert_store.cpp:93-117 | Session certificates for the host are dropped. A session mark adds the host to the session set. A permanent mark, unless already present, drops the permanent certificates and adds the host. Exclusion is kept. |
| CertStore.Store.DoSetInsecure | src/commonui/cert_store.cpp:119-128 | True iff the host is not yet permanently insecure. |
| CertStore.Store.SetTrusted | src/commonui/cert_store.cpp:130-159 | The host leaves the session insecure set. A session trust appends the certificate. A permanent trust, unless already trusted, appends it and clears the permanent insecure mark. Exclusion is kept. |
| CertStore.Store.DoSetTrusted | src/commonui/cert_store.cpp:161-170 | True iff the certificate is not yet permanently trusted for its exact host. |
| CertStore.TrustedHostNotInsecure | src/commonui/cert_store.cpp:95-158 | Under the exclusion invariant, a host trusted in a tier is not insecure in it. |
| CertStore.MarkInsecureKeepsExclusive | src/commonui/cert_store.cpp:95-117 | Dropping a host's certificates and marking it insecure keeps the exclusion. |
| FzPaths.ExpandTokenCases | FileZilla3/trunk/src/commonui/fz_paths.cpp:419-434 | `$$x` becomes `$x`. `$NAME` becomes the variable's value, or nothing when unset. A lone `$` gives nothing, and any token not starting with `$` is copied. |
| FzPaths.EndsInSlash | FileZilla3/trunk/src/commonui/fz_paths.cpp:403-438 | The expansion is empty iff the text is, and a non-empty expansion ends with `/`. |
| FzPaths.Expanded | FileZilla3/trunk/src/commonui/fz_paths.cpp:396-441 | Empty stays empty, and a non-empty result ends with `/`. |
| FzPaths.ExpandPath | FileZilla3/trunk/src/commonui/fz_paths.cpp:396-450 | The tokenising loop computes `Expanded`: empty iff the input is, and `/`-terminated. |
| FzPaths.AppendToken | FileZilla3/trunk/src/commonui/fz_paths.cpp:403-438 | One iteration shortens the input and keeps `result + expansion(rest)` unchanged, the loop invariant. |
| FzPaths.NextToken | FileZilla3/trunk/src/commonui/fz_paths.cpp:404-417 | The token holds no `/`, the rest is shorter, and the expansion splits into token, `/` and rest. |
| FzPaths.ExpandPlain | FileZilla3/trunk/src/commonui/fz_paths.cpp:396-441 | A `/`-terminated path without `$` expands to itself. |
| FzPaths.ExpandPlainUnterminated | FileZilla3/trunk/src/commonui/fz_paths.cpp:396-441 | An unterminated path without `$` just gains a `/`. |
| FzPaths.ExpandIdempotent | FileZilla3/trunk/src/commonui/fz_paths.cpp:396-441 | Expanding again changes nothing once the result has no `$`. |
| FzPaths.ExpandVariable | FileZilla3/trunk/src/commonui/fz_paths.cpp:422-428 | A leading `$NAME/` token is replaced by the variable's value. |
| FzPaths.TryDirectory | FileZilla3/trunk/src/commonui/fz_paths.cpp:26-45 | A relative or empty path gives empty. Otherwise the result is the path, a `/` if it lacked one and the suffix, emptied only when it must exist and does not. |
| FzPaths.UnadjustedSettingsDir | FileZilla3/trunk/src/commonui/fz_paths.cpp:85-101 | The first existing candidate, else the first formable one; `SettingsDirFound`, `SettingsDirPrefersExisting` and `SettingsDirDefault` state its choice. |
| FzPaths.SettingsDirFound | FileZilla3/trunk/src/commonui/fz_paths.cpp:85-101 | A settings directory results iff `XDG_CONFIG_HOME` or `HOME` is absolute. |
| FzPaths.SettingsDirPrefersExisting | FileZilla3/trunk/src/commonui/fz_paths.cpp:85-101 | With an existing `~/.filezilla/`, the chosen directory exists: the three checked candidates come first. |
| FzPaths.SettingsDirDefault | FileZilla3/trunk/src/commonui/fz_paths.cpp:85-101 | With nothing in place and `XDG_CONFIG_HOME` absolute, the XDG directory is chosen. |
| FzPaths.ReadSettingsFromDefaults | FileZilla3/trunk/src/commonui/fz_paths.cpp:356-374 | Empty without a defaults directory. A result is the expanded location, exists and ends with `/`. An existing expanded location is returned. |
| FileUtils.HexValue | src/interface/file_utils.cpp:62 | A hexadecimal digit's value is below 16. |
| FileUtils.HexDigitValue | src/interface/file_utils.cpp:62 | The digit written for a nibble reads back as that nibble. |
| FileUtils.AsWrittenCollides | src/interface/file_utils.cpp:62 | As written (`%x`, unpadded), the bytes 0x01 0x31 and the byte 0x11 both encode as `%11`. |
| FileUtils.EncodeAsWritten | src/interface/file_utils.cpp:25-64 | The URL path encoding as written, with unpadded `%x`; `AsWrittenCollides` shows two paths colliding. |
| FileUtils.EncodeByte | src/interface/file_utils.cpp:28-63 | A byte from the RFC 1738 safe set is copied, and any other byte becomes `%` with two hex digits of its value. |
| FileUtils.EncodeAppend | src/interface/file_utils.cpp:25-64 | Encoding works byte by byte: appending a byte appends its encoding. |
| FileUtils.DecodeEncode | src/interface/file_utils.cpp:25-64 | With two-digit escapes, decoding the encoding gives back the bytes. |
| FileUtils.Encode | src/interface/file_utils.cpp:25-64 | The encoding with two-digit escapes; `DecodeEncode` proves `Decode` inverts it. |
| FileUtils.Decode | src/interface/file_utils.cpp:25-64 | The RFC 1738 reading of the encoded path: escapes decoded, safe characters kept; the partner of `Encode` in `DecodeEncode`. |
| FileUtils.EncodeInjective | src/interface/file_utils.cpp:25-64 | Different byte strings never encode alike. |
| FileUtils.UntilNul | src/interface/file_utils.cpp:24-25 | The bytes `while (*p)` visits: the longest prefix without NUL. |
| FileUtils.GetAsUrl | src/interface/file_utils.cpp:16-74 | The URL starts with `file://`, and the rest is the encoding of the path's bytes up to the first NUL, which decodes back to them. |
| FileUtils.UnquoteFrom | src/interface/file_utils.cpp:203-234 | A failed scan leaves the command as it was, with no arguments. |
| FileUtils.Unquote | src/interface/file_utils.cpp:194-240 | An empty command succeeds with empty command and arguments. |
| FileUtils.UnquoteCommand | src/interface/file_utils.cpp:194-240 | The character loop computes `Unquote`, including the failure that keeps the command. |
| FileUtils.StepLiteral | src/interface/file_utils.cpp:205-230 | Inside double quotes, any other character is part of the file name. |
| FileUtils.StepDoubled | src/interface/file_utils.cpp:213-216 | Inside quotes, a doubled quote of the opening kind gives one literal quote. |
| FileUtils.StepClose | src/interface/file_utils.cpp:217-219 | A single quote of the opening kind closes the quotes. |
| FileUtils.ScanQuoted | src/interface/file_utils.cpp:203-220 | A quoted name with doubled inner quotes scans back to the name, with the quotes closed. |
| FileUtils.QuotedCommandRoundTrip | src/interface/file_utils.cpp:194-240 | Quoting a program name (doubling its quotes) and adding arguments unquotes to the name and the left-trimmed arguments. |
| FileUtils.QuotedAloneRoundTrip | src/interface/file_utils.cpp:194-240 | A quoted program name alone unquotes to the name with no arguments. |
| FileUtils.OpenQuoteFails | src/interface/file_utils.cpp:233-235 | A scan inside quotes that meets no closing quote fails. |
| FileUtils.UnterminatedQuote | src/interface/file_utils.cpp:233-235 | An opening quote never closed makes `UnquoteCommand` return false and leave the command untouched. |
| FileUtils.GetExtension | src/interface/file_utils.cpp:436-458 | The extension holds no separator, and it is either `.` or holds no dot. A name without a dot after the last `/` has the empty extension. |
| FileUtils.ExtensionIgnoresDirectory | src/interface/file_utils.cpp:439-446 | The directory part before the last `/` does not affect the extension. |
| FileUtils.ExtensionOfStemDotExt | src/interface/file_utils.cpp:449-454 | `stem.ext` with a non-empty stem gives `ext`. |
| FileUtils.ExtensionOfDotFile | src/interface/file_utils.cpp:450-452 | A name whose only dot is its first character gives `.`. |
| FileUtils.IsInvalidChar | src/interface/file_utils.cpp:460-483 | `/` is always invalid and `'` iff quotes are included. Nothing else is invalid except `"` and `\` with quotes. |
| FileUtils.InvalidCharsGrowWithQuotes | src/interface/file_utils.cpp:460-483 | Including quotes only adds characters, exactly `'`, `"` and `\`. |
| EditHandler.IndexOf | src/interface/edithandler.cpp:450-516 | The first entry with the same key (local file for local entries; name, site and path for remote ones), or -1 when there is none. |
| EditHandler.GetFile | src/interface/edithandler.cpp:450-516 | The list walk finds `IndexOf`. |
| EditHandler.StateOf | src/interface/edithandler.cpp:227-245 | An untracked file is `unknown`, and a tracked one has its entry's state. |
| EditHandler.IndexOfAppended | src/interface/edithandler.cpp:309 | Appending an untracked file's entry makes it found at the end, and keys stay unique. |
| EditHandler.Without | src/interface/edithandler.cpp:349 | `erase` removes exactly the one entry and keeps the order of the rest. |
| EditHandler.WithState | src/interface/edithandler.cpp:366 | Overwriting the state changes only that entry's state. |
| EditHandler.WithoutUnique | src/interface/edithandler.cpp:349 | Erasing keeps keys unique, and the erased file is no longer found. |
| EditHandler.WithStateUnique | src/interface/edithandler.cpp:366 | A state change keeps keys unique. |
| EditHandler.UpdateUnique | src/interface/edithandler.cpp:518-603 | Erasing or re-stating an entry keeps keys unique and no entry `unknown`. |
| EditHandler.Kept | src/interface/edithandler.cpp:383-396 | One entry of a sweep is kept as it is, kept as `removing`, or dropped. |
| EditHandler.Sweep | src/interface/edithandler.cpp:380-447 | A sweep never grows the list. |
| EditHandler.SweepList | src/interface/edithandler.cpp:382-400 | The `keep` loop and `swap` compute `Sweep`. |
| EditHandler.SweepMembers | src/interface/edithandler.cpp:380-447 | An entry survives a sweep iff some old entry is kept as it. |
| EditHandler.SweepUnique | src/interface/edithandler.cpp:380-447 | A sweep keeps keys unique. |
| EditHandler.SweepKnown | src/interface/edithandler.cpp:380-447 | A sweep leaves no entry `unknown`. |
| EditHandler.ForcedLocalEmpty | src/interface/edithandler.cpp:402-405 | A forced `RemoveAll` empties the local list. |
| EditHandler.ForcedRemoteLeft | src/interface/edithandler.cpp:383-396 | After a forced `RemoveAll`, exactly the remote entries whose local copy could not be deleted are left, as `removing`. |
| EditHandler.ForcedRemoteEmpty | src/interface/edithandler.cpp:380-412 | A forced `RemoveAll` empties the remote list iff every local copy could be deleted. |
| EditHandler.UnforcedKeepsTransfers | src/interface/edithandler.cpp:384-409 | Without force, remote entries in transfer are kept, and a local entry is kept iff it is uploading. |
| EditHandler.FailedUploadsCleared | src/interface/edithandler.cpp:416-446 | After `RemoveAll(upload_and_remove_failed, site)`, a failed entry is left only for another site, or as `removing`. |
| EditHandler.FinishedLocal | src/interface/edithandler.cpp:518-545 | A finished local upload never stays uploading and never becomes `unknown`. |
| EditHandler.FinishedRemote | src/interface/edithandler.cpp:547-603 | A finished transfer ends dropped, `edit`, `removing` or `upload_and_remove_failed`. The last only comes from a failed upload-and-remove, and `removing` only when the copy could not be deleted. |
| EditHandler.UploadNext | src/interface/edithandler.cpp:828-861 | An upload goes ahead iff the local file exists and has a name part, to `upload_and_remove` when unediting and `upload` otherwise. |
| EditHandler.NamePart | src/interface/edithandler.cpp:848-849 | The name part holds no `/`. |
| EditHandler.CountIn | src/interface/edithandler.cpp:259-270 | A count never exceeds the list's length. |
| EditHandler.CountList | src/interface/edithandler.cpp:259-270 | The counting loop computes `CountIn`. |
| EditHandler.FoundIsCounted | src/interface/edithandler.cpp:259-270 | A listed entry is counted in its own state. |
| EditHandler.CountAllSites | src/interface/edithandler.cpp:266-268 | Counting one site never counts more than counting all sites. |
| EditHandler.TruncateFilename | src/interface/edithandler.cpp:1017-1037 | A name that fits, or has no dot, stays. Otherwise it is empty iff path plus extension reach `max`, and else exactly `max - |path|` long: the stem cut, the extension from the last dot kept. |
| EditHandler.TruncateKeepsExtension | src/interface/edithandler.cpp:1029 | The truncated name's last dot starts the original extension. |
| EditHandler.FilenameExists | src/interface/edithandler.cpp:1039-1062 | Taken iff a remote entry uses the file as its local copy (compared after folding ASCII letters to lower case), or the file exists and cannot be removed. |
| EditHandler.Taken | src/interface/edithandler.cpp:1039-1062 | Whether a temporary name is taken: a remote entry uses it as its local copy, or the file stays on disk; `FilenameExists` computes it. |
| EditHandler.GetTemporaryFile | src/interface/edithandler.cpp:963-1014 | The plain name if free. Otherwise the first free `stem n.ext` for n from 2 to 9999, every earlier candidate taken, or empty when all are taken. |
| EditHandler.FirstAssociation | src/interface/edithandler.cpp:942-953 | Either nothing, or the command of an association line for the extension, whose program is non-empty. |
| EditHandler.GetCustomAssociation | src/interface/edithandler.cpp:930-956 | The line loop returns the first association for the file's extension (`/` for none) that has a program. |
| EditHandler.Handler.constructor | src/interface/edithandler.cpp:32-44 | Both lists start empty. |
| EditHandler.Handler.FileCount | src/interface/edithandler.cpp:247-282 | A count never exceeds the lists it covers. |
| EditHandler.Handler.GetFileCount | src/interface/edithandler.cpp:247-282 | The method computes `FileCount`: all entries for `unknown`, else those in the state and site. |
| EditHandler.Handler.AddFile | src/interface/edithandler.cpp:284-337 | A tracked file is refused. A new remote entry starts in `download`, and a new local entry in `edit`, kept only if the editor started and local files are tracked. Keys stay unique. |
| EditHandler.Handler.RemoveLocal | src/interface/edithandler.cpp:339-354 | Refused during an upload. Otherwise the entry goes and the file is untracked. |
| EditHandler.Handler.RemoveRemote | src/interface/edithandler.cpp:356-378 | An untracked file counts as removed, and one in transfer is refused. A copy that cannot be deleted leaves the entry `removing` with false. Otherwise the entry goes. |
| EditHandler.Handler.RemoveAll | src/interface/edithandler.cpp:380-414 | Both lists are swept, and the result is true iff both end up empty. |
| EditHandler.Handler.RemoveAllInState | src/interface/edithandler.cpp:416-448 | Only `upload_and_remove_failed` is handled, sweeping the remote list for the site. Any other state returns false with nothing changed. |
| EditHandler.Handler.FinishLocal | src/interface/edithandler.cpp:518-545 | The local entry moves as `FinishedLocal` says. Nothing else changes. |
| EditHandler.Handler.FinishRemote | src/interface/edithandler.cpp:547-603 | The remote entry moves as `FinishedRemote` says. Nothing else changes. |
| EditHandler.Handler.UploadLocal | src/interface/edithandler.cpp:814-863 | Acts only from `edit` or `upload_and_remove_failed`, moving the entry as `UploadNext` says. Otherwise it returns false. |
| EditHandler.Handler.UploadRemote | src/interface/edithandler.cpp:808-863 | As `UploadLocal`, on the remote list. |
| EditHandler.AddTo | src/interface/edithandler.cpp:294-312 | Adds iff the file was untracked, and the new entry is then found with its state. |
| EditHandler.UploadEntry | src/interface/edithandler.cpp:820-863 | A missing entry or one in another state gives false unchanged. Otherwise it follows `UploadNext`, erasing on failure. |
| StorjTrunk.Chars | FileZilla3/trunk/src/storj/fzstorj.cpp:70 | Bytes become characters one for one. |
| StorjTrunk.ReadLine | FileZilla3/trunk/src/storj/fzstorj.cpp:53-74 | `getLine` consumes input, and at least one byte when it succeeds. |
| StorjTrunk.ReadLinePlain | FileZilla3/trunk/src/storj/fzstorj.cpp:53-74 | The line read extends what was collected and holds no NUL, line feed or carriage return. |
| StorjTrunk.GetLine | FileZilla3/trunk/src/storj/fzstorj.cpp:53-74 | The `fgetc` loop computes `ReadLine`. |
| StorjTrunk.LineRoundTrip | FileZilla3/trunk/src/storj/fzstorj.cpp:53-74 | A line of plain bytes ended by a line feed reads back as itself, and succeeds iff it is non-empty. The rest of the input is left. |
| StorjTrunk.CarriageReturnDropped | FileZilla3/trunk/src/storj/fzstorj.cpp:66-68 | `\r\n` reads like `\n`. |
| StorjTrunk.CarriageReturnSkipped | FileZilla3/trunk/src/storj/fzstorj.cpp:66-68 | A carriage return anywhere is skipped. |
| StorjTrunk.EndOfInputFails | FileZilla3/trunk/src/storj/fzstorj.cpp:58-60 | Input that ends before a NUL or line feed makes `getLine` fail. |
| StorjTrunk.FindFrom | FileZilla3/trunk/src/storj/fzstorj.cpp:89 | `find` returns -1 or a position at or after `from` holding the character. |
| StorjTrunk.FindFromNone | FileZilla3/trunk/src/storj/fzstorj.cpp:89 | `find` returns -1 when the character does not occur. |
| StorjTrunk.FindFromSkips | FileZilla3/trunk/src/storj/fzstorj.cpp:89 | `find` never skips an occurrence. |
| StorjTrunk.ScanQuoted | FileZilla3/trunk/src/storj/fzstorj.cpp:86-93 | A closed scan ends at a quote followed by a space or the end of the line. |
| StorjTrunk.Unquoted | FileZilla3/trunk/src/storj/fzstorj.cpp:98-106 | The unquoted argument runs to the first space, and the line is argument, space and remainder. |
| StorjTrunk.NextArg | FileZilla3/trunk/src/storj/fzstorj.cpp:82-108 | The corrected `next_argument` always leaves a trimmed remainder. |
| Text.Trim | FileZilla3/trunk/src/storj/fzstorj.cpp:80 | `fz::trim`: the result has no whitespace at either end, is no longer than the input, and an already trimmed text is kept. |
| Text.LTrim | src/interface/file_utils.cpp:222 | `fz::ltrimmed`: the result is a suffix of the input with only whitespace dropped, and it does not start with whitespace. |
| StorjTrunk.NextArgAgrees | FileZilla3/trunk/src/storj/fzstorj.cpp:82-108 | The corrected version returns what the source returns wherever the source does not throw. Where it throws, the corrected version returns nothing and consumes the line. |
| StorjTrunk.NextArgumentAsWritten | FileZilla3/trunk/src/storj/fzstorj.cpp:82-108 | `next_argument` as written, which throws on a malformed quoted argument; `UnterminatedQuoteThrows` and `NextArgAgrees` relate it to `NextArg`. |
| StorjTrunk.NextArgument | FileZilla3/trunk/src/storj/fzstorj.cpp:82-108 | The trimming, scanning and slicing code computes `NextArg`. |
| StorjTrunk.QuotedArgument | FileZilla3/trunk/src/storj/fzstorj.cpp:85-95 | The quoted-argument loop computes `Quoted`. |
| StorjTrunk.Quote | FileZilla3/trunk/src/storj/fzstorj.cpp:85-95 | A quoted argument is wrapped in quotes. |
| StorjTrunk.ScanDoubled | FileZilla3/trunk/src/storj/fzstorj.cpp:86-95 | A quoted text with its quotes doubled scans back to the text. |
| StorjTrunk.NextArgQuoted | FileZilla3/trunk/src/storj/fzstorj.cpp:82-95 | A line starting with a quoted argument yields it and the trimmed rest. |
| StorjTrunk.QuotedLast | FileZilla3/trunk/src/storj/fzstorj.cpp:82-108 | `next_argument(quote(a))` is `a` with nothing left, for every `a`. |
| StorjTrunk.QuotedThen | FileZilla3/trunk/src/storj/fzstorj.cpp:82-108 | `next_argument(quote(a) + " " + rest)` is `a`, leaving `rest`. |
| StorjTrunk.UnquotedLast | FileZilla3/trunk/src/storj/fzstorj.cpp:96-108 | A plain word alone is returned with nothing left. |
| StorjTrunk.UnquotedThen | FileZilla3/trunk/src/storj/fzstorj.cpp:96-108 | A plain word followed by a space and a rest yields the word and the rest. |
| StorjTrunk.UnterminatedQuoteThrows | FileZilla3/trunk/src/storj/fzstorj.cpp:89-93 | As written, an opening quote without a closing one clears the line and then slices it from position 1, which throws. The corrected version returns nothing. |
| StorjTrunk.SplitPath | FileZilla3/trunk/src/storj/fzstorj.cpp:390-405 | An empty path gives two empty parts. Otherwise the path after its first character is bucket, `/` and key, or the bucket alone. The bucket holds no `/`. |
| StorjTrunk.SplitPathJoin | FileZilla3/trunk/src/storj/fzstorj.cpp:390-405 | `/bucket/key` and `/bucket` split back into their parts. |
| StorjTrunk.Frame | FileZilla3/trunk/src/storj/fzstorj.cpp:17-38 | Every reply starts with the character `'0' + event`. |
| StorjTrunk.Frames | FileZilla3/trunk/src/storj/fzstorj.cpp:17-38 | Each reply writes at least one character. |
| StorjTrunk.EventOf | FileZilla3/trunk/src/storj/fzstorj.cpp:21 | The event read back from a character is a byte value. |
| StorjTrunk.FramesReadBack | FileZilla3/trunk/src/storj/fzstorj.cpp:17-38 | When each event always or never carries text, and no text holds a line feed, the reply stream reads back as the replies written. |
| StorjTrunk.List | FileZilla3/trunk/src/storj/fzstorj.cpp:490-510 | No bucket lists the buckets. Otherwise the objects of a bucket are listed under a prefix that is empty or ends with `/`. |
| StorjTrunk.Get | FileZilla3/trunk/src/storj/fzstorj.cpp:511-525 | A download needs a file, a bucket and an object key (non-empty, not ending in `/`). Anything else is "Bad arguments". |
| StorjTrunk.SplitKey | FileZilla3/trunk/src/storj/fzstorj.cpp:539-549 | The key splits at its last `/` into prefix and object name, and a key without `/` is all name. |
| StorjTrunk.SplitKeyJoin | FileZilla3/trunk/src/storj/fzstorj.cpp:539-549 | `prefix/name` splits back into its parts. |
| StorjTrunk.Put | FileZilla3/trunk/src/storj/fzstorj.cpp:526-555 | An upload needs a file, a bucket and an object key. The file `null` means none, and the object name holds no `/`. |
| StorjTrunk.Remove | FileZilla3/trunk/src/storj/fzstorj.cpp:556-568 | A delete needs a bucket and a key. |
| StorjTrunk.Bucket | FileZilla3/trunk/src/storj/fzstorj.cpp:569-592 | `mkbucket` and `rmbucket` need a name. |
| StorjTrunk.Verb | FileZilla3/trunk/src/storj/fzstorj.cpp:471-476 | The verb is the command up to its first space. |
| StorjTrunk.Argument | FileZilla3/trunk/src/storj/fzstorj.cpp:471-476 | The command is verb, space and argument, and without a space the argument is empty. |
| StorjTrunk.CommandOf | FileZilla3/trunk/src/storj/fzstorj.cpp:478-595 | Exactly the nine verbs are known. |
| StorjTrunk.Dispatch | FileZilla3/trunk/src/storj/fzstorj.cpp:478-595 | An unknown verb gives "No such command". Only `host`, `key` and `pass` change the settings, and they answer Done. |
| StorjTrunk.CommandSplit | FileZilla3/trunk/src/storj/fzstorj.cpp:471-476 | `verb arg` dispatches `verb` with `arg`. |
| StorjTrunk.GetRoundTrip | FileZilla3/trunk/src/storj/fzstorj.cpp:511-525 | The engine's quoted `get "/b/k" "file"` is a download of `k` from `b` to `file`. |
| StorjTrunk.ListNothing | FileZilla3/trunk/src/storj/fzstorj.cpp:490-503 | `list` without an argument lists the buckets. |
| StorjTrunk.ListRoundTrip | FileZilla3/trunk/src/storj/fzstorj.cpp:490-510 | `list "/b/k"` lists bucket `b` under `k` made a prefix (a `/` added), and `list "/b"` lists all of `b`. |
| StorjTrunk.RemoveRoundTrip | FileZilla3/trunk/src/storj/fzstorj.cpp:556-568 | `rm "/b/k"` deletes key `k` of bucket `b`, and `rm "/b"` without a key is refused. |
| StorjTrunk.BucketRoundTrip | FileZilla3/trunk/src/storj/fzstorj.cpp:569-592 | `mkbucket "n"` creates and `rmbucket "n"` deletes bucket `n`, and either without a name is refused. |
| StorjTrunk.PutRoundTrip | FileZilla3/trunk/src/storj/fzstorj.cpp:526-555 | The engine's quoted `put "file" "/b/prefix/name"` is an upload of `name` under `prefix`. |
| StorjTrunk.GetCommand | FileZilla3/trunk/src/storj/fzstorj.cpp:471-525 | A `get` line is handled by `Get` on its argument. |
| StorjTrunk.PutCommand | FileZilla3/trunk/src/storj/fzstorj.cpp:471-555 | A `put` line is handled by `Put` on its argument. |
| StorjTrunk.GetRefusesDirectory | FileZilla3/trunk/src/storj/fzstorj.cpp:515-518 | A key ending in `/` is refused. |
| StorjTrunk.Serve | FileZilla3/trunk/src/storj/fzstorj.cpp:459-598 | The loop exits with 1 on a failed `getLine` and 0 on an empty line, and it only appends actions. |
| StorjTrunk.Run | FileZilla3/trunk/src/storj/fzstorj.cpp:459-598 | The `while (true)` loop computes `Serve` from no settings. |
| StorjTrunk.ServeCommand | FileZilla3/trunk/src/storj/fzstorj.cpp:459-596 | A command line is handled, and the loop goes on with the rest of the input. |
| StorjTrunk.ServeEndOfInput | FileZilla3/trunk/src/storj/fzstorj.cpp:461-464 | Input without a NUL or line feed ends the helper with exit code 1. |
| StorjBranch.Frame | FileZilla3/branches/storj/src/storj/fzstorj.cpp:9-19 | A reply is the event character, the text and a line feed. |
| StorjBranch.Frames | FileZilla3/branches/storj/src/storj/fzstorj.cpp:9-19 | Each reply writes at least two characters. |
| StorjBranch.AsTrunk | FileZilla3/branches/storj/src/storj/fzstorj.cpp:9-19 | Each branch reply is a trunk reply whose text is present. |
| StorjBranch.FramesAsTrunk | FileZilla3/branches/storj/src/storj/fzstorj.cpp:9-19 | The branch writes replies the way trunk writes them with text. |
| StorjBranch.FramesReadBack | FileZilla3/branches/storj/src/storj/fzstorj.cpp:9-19 | Replies without a line feed in their text read back as the replies written. |
| StorjBranch.Initial | FileZilla3/branches/storj/src/storj/fzstorj.cpp:214-220 | The helper starts on port 443 with no environment. |
| StorjBranch.InitEnv | FileZilla3/branches/storj/src/storj/fzstorj.cpp:224-245 | `init_env` creates the environment from the current settings the first time only. Later settings do not reach an existing environment. |
| StorjBranch.PortValue | FileZilla3/branches/storj/src/storj/fzstorj.cpp:270 | `to_integral<unsigned short>` is the decimal value when it fits in 16 bits, and 0 otherwise. |
| StorjBranch.HostAsWritten | FileZilla3/branches/storj/src/storj/fzstorj.cpp:266-274 | As written, with a `:` present, the host is cut at `pos` (the command's space) and not at the `:`. Without a `:` the argument is the host. |
| StorjBranch.HostPort | FileZilla3/branches/storj/src/storj/fzstorj.cpp:266-274 | The corrected `host` splits at the first `:` into a host without `:` and a 16-bit port. Without a `:` the old port is kept. |
| StorjBranch.HostPortJoin | FileZilla3/branches/storj/src/storj/fzstorj.cpp:266-274 | `h:p` sets host `h` and port `p`. |
| StorjBranch.HostSliceWrong | FileZilla3/branches/storj/src/storj/fzstorj.cpp:268-272 | As written, `h:p` gives the wrong result for every host whose length is not 4. |
| StorjBranch.Undouble | FileZilla3/branches/storj/src/storj/fzstorj.cpp:323 | Replacing `""` by `"` never lengthens the text. |
| StorjBranch.UndoubleDoubled | FileZilla3/branches/storj/src/storj/fzstorj.cpp:323 | Undoubling inverts doubling. |
| StorjBranch.UnquoteFile | FileZilla3/branches/storj/src/storj/fzstorj.cpp:322-324 | A file name that is not quoted and at least three characters long is left unchanged. |
| StorjBranch.UnquoteQuoted | FileZilla3/branches/storj/src/storj/fzstorj.cpp:322-324 | A quoted non-empty name reads back as itself. |
| StorjBranch.GetAsWritten | FileZilla3/branches/storj/src/storj/fzstorj.cpp:307-324 | As written, `get` refuses only an argument without any space. |
| StorjBranch.Get | FileZilla3/branches/storj/src/storj/fzstorj.cpp:307-324 | The corrected `get` downloads to a bucket and id without spaces, or refuses the line. |
| StorjBranch.GetRoundTrip | FileZilla3/branches/storj/src/storj/fzstorj.cpp:307-324 | `get b i "f"` downloads `i` from `b` to `f`. |
| StorjBranch.GetSplit | FileZilla3/branches/storj/src/storj/fzstorj.cpp:307-324 | `get b i file` takes the whole rest as the file, unquoted. |
| StorjBranch.GetWithoutFile | FileZilla3/branches/storj/src/storj/fzstorj.cpp:314-320 | `get b i` with no file is accepted as written, with the whole argument as the file name. The corrected check refuses it. |
| StorjBranch.QuotedField | FileZilla3/branches/storj/src/storj/fzstorj.cpp:370-386 | A closed field starts and ends with a quote and is followed by the expected terminator. |
| StorjBranch.ReadField | FileZilla3/branches/storj/src/storj/fzstorj.cpp:370-386 | The `find` loop over doubled quotes computes `QuotedField`. |
| StorjBranch.Put | FileZilla3/branches/storj/src/storj/fzstorj.cpp:361-404 | An upload's bucket holds no space, and an argument without a space is refused. |
| StorjBranch.Fields | FileZilla3/branches/storj/src/storj/fzstorj.cpp:368-404 | The two quoted fields give an upload to the given bucket, or are refused. |
| StorjBranch.PutSplit | FileZilla3/branches/storj/src/storj/fzstorj.cpp:362-368 | The bucket ends at the first space. |
| StorjBranch.PutArguments | FileZilla3/branches/storj/src/storj/fzstorj.cpp:361-404 | The parsing code computes `Put`. |
| StorjBranch.ReadFields | FileZilla3/branches/storj/src/storj/fzstorj.cpp:368-404 | The parsing code computes `Fields`. |
| StorjBranch.FieldQuoted | FileZilla3/branches/storj/src/storj/fzstorj.cpp:370-386 | A quoted text followed by a terminator is read back, and the scan stops after its closing quote. |
| StorjBranch.PutRoundTrip | FileZilla3/branches/storj/src/storj/fzstorj.cpp:361-404 | `put b "file" "name"` uploads `file` to `b` as `name`, for every file and name. |
| StorjBranch.FieldsQuoted | FileZilla3/branches/storj/src/storj/fzstorj.cpp:368-404 | Two quoted fields give the upload. |
| StorjBranch.FieldsAccepted | FileZilla3/branches/storj/src/storj/fzstorj.cpp:368-404 | Two closed fields give the upload of their values. |
| StorjBranch.PutRefusesTrailing | FileZilla3/branches/storj/src/storj/fzstorj.cpp:399-402 | Text after the remote name is refused. |
| StorjBranch.FieldsTrailing | FileZilla3/branches/storj/src/storj/fzstorj.cpp:399-402 | Text after the second field is refused. |
| StorjBranch.FieldEndsAtSpace | FileZilla3/branches/storj/src/storj/fzstorj.cpp:380-402 | A field closed by a space is not closed by the end of the line. |
| StorjBranch.FieldsRefused | FileZilla3/branches/storj/src/storj/fzstorj.cpp:399-402 | A second field that is not closed by the end of the line is refused. |
| StorjBranch.Tokens | FileZilla3/branches/storj/src/storj/fzstorj.cpp:445 | `fz::strtok` gives non-empty tokens without spaces. |
| StorjBranch.Remove | FileZilla3/branches/storj/src/storj/fzstorj.cpp:443-449 | `rm` deletes iff the argument has exactly two tokens, bucket and id. |
| StorjBranch.TokensSpace | FileZilla3/branches/storj/src/storj/fzstorj.cpp:445 | A leading space does not change the tokens. |
| StorjBranch.TokensWord | FileZilla3/branches/storj/src/storj/fzstorj.cpp:445 | A word ended by a space or the end of the text is the first token. |
| StorjBranch.RemoveWords | FileZilla3/branches/storj/src/storj/fzstorj.cpp:443-449 | Repeated and surrounding spaces do not matter to `rm b i`. |
| StorjBranch.CommandOf | FileZilla3/branches/storj/src/storj/fzstorj.cpp:266-466 | Exactly the eight verbs are known. |
| StorjBranch.Request | FileZilla3/branches/storj/src/storj/fzstorj.cpp:307-463 | A refused request leaves the state alone. An accepted one creates the environment first. |
| StorjBranch.Dispatch | FileZilla3/branches/storj/src/storj/fzstorj.cpp:266-466 | An unknown verb gives "No such command". `list` creates the environment and answers "No bucket given" without an argument, else lists the files of the argument. `list-buckets` lists the buckets, and `get`, `put` and `rm` act as `Get`, `Put` and `Remove` on their argument. The environment is only ever created, and a settings change answers Done. |
| StorjBranch.Handle | FileZilla3/branches/storj/src/storj/fzstorj.cpp:259-466 | Handling a line only ever creates the environment. |
| StorjBranch.CommandSplit | FileZilla3/branches/storj/src/storj/fzstorj.cpp:259-264 | `verb arg` dispatches `verb` with `arg`. |
| StorjBranch.ListWithoutBucket | FileZilla3/branches/storj/src/storj/fzstorj.cpp:293-299 | The line `list` alone creates the environment and is answered "No bucket given". |
| StorjBranch.Serve | FileZilla3/branches/storj/src/storj/fzstorj.cpp:248-474 | The helper exits with 1 on a failed `getLine` and 0 on an empty line. It only appends actions and never replaces an environment. |
| StorjBranch.Run | FileZilla3/branches/storj/src/storj/fzstorj.cpp:212-474 | The `while (true)` loop from the initial settings computes `Serve`. |

## Left out

- Threads, mutexes and condition variables. Each iteration of a worker's `entry()` loop is one step, posted events are counted, and signals are counted.
- Operating-system calls (`read`, `write`, `mmap`, `CreateFileMapping`, `fopen`, `stat`, directory and environment lookups) become parameters or outcome values. Their failure modes are whatever the parameter says.
- `nonowning_buffer` byte semantics. A ring slot holds exactly the bytes copied into it, and the buffer class is not part of this model.
- Calls made after `close()`. The source resets the ready count there and later reads would wrap, so the model gives `Close` its own contract and stops.
- `string_reader::create` and the ownership of the string handed to `string_reader` (FileZilla3/trunk/src/engine/reader.cpp:390).
- The second error test in `memory_reader::read`. It repeats the first and cannot change the outcome.
- Reader.MemoryReader.Size: states only that the reported size is at least what remains, because the source's value depends on the rewound start data.
- `events.hpp` and the engine's event loop are not part of this model. Event delivery is a counter.
- The Storj library (`uplink`, `storj_*`), `libuv` and `uv_run`, and `json-c`. Their calls are recorded actions, and their callbacks and results are not modelled.
- The Storj helper's output mutex and `fflush`. The protocol-version greeting line. Event codes of 208 and above, which do not fit one character after `'0'`.
- `fz::to_integral<unsigned short>` is taken to accept decimal digits whose value fits 16 bits and to return 0 otherwise. `fz::strtok` is taken to drop empty tokens. Both are libfilezilla code that is not part of this model.
- `optionsbase.h` is not part of this model. The watched-options words are modelled as sets of bit positions. `to_integral` there is taken as an optional sign followed by digits, or 0, without overflow.
- `COptionsBase`: the mutex, `process_changed`, and the notifier callbacks. XML option values are opaque text.
- `ConvertToVersionNumber`: the signed 64-bit overflow of very long digit runs, and shifts beyond five separators, are not modelled.
- `CServer::Load`, `Assign` and `Initialize` are not modelled. `url_encode` is a parameter of `Format`, and translations and `fz::datetime` are left out.
- The SFTP download-open reply `-%u %u %u` is modelled as written. The helper that reads it is not part of this model.
- `LookupManyOpData` is not modelled. Only the single-file `Lookup` operation is.
- Certificate store: `GetSessionResumptionSupport` and `SetSessionResumptionSupport` (fixed stubs) are not modelled. `LoadTrustedCerts` and the saving of certificates (disk and XML I/O) are left out too.
- `fz_paths`: `GetSettingsDir`, `GetHomeDir`, `GetFZDataDir` and `GetDefaultsDir` depend on `CLocalPath` and operating-system lookups, so their results are parameters. The Windows-only branches are not modelled.
- Edit handler: the GUI, launching the editor, the transfer queue, `ReplaceInvalidCharacters` and the Windows `MAX_PATH` shortening inside `GetTemporaryFile` are not modelled. Their effects are parameters or recorded actions.
- EditHandler.FilenameExists: compares names after folding only ASCII letters, whereas `wxString::CmpNoCase` also folds letters outside ASCII, because Unicode case folding is not modelled.
- Integer widths: sizes and offsets are unbounded naturals except where the source's 64-bit or 16-bit limits decide a branch, which the model writes out.

## Findings

| source | as written | input that shows it | evidently intended | confidence | as-written member | corrected member |
|---|---|---|---|---|---|---|
| src/engine/aio.cpp:61-64 | The result of `mmap` is compared with null. | A failing `mmap`, which returns `MAP_FAILED` (-1), is taken as a mapping. | Compare with `MAP_FAILED`. | not executed | Aio.MmapFailureUndetected | Aio.PosixAio.AllocateMemory |
| src/engine/ftp/filetransfer.cpp:495-512 | The resume probe records the 4 GiB bug class only for local sizes strictly above 4 GiB. | A local file of exactly 4 GiB (4294967296 bytes) leaves the class unknown, so the next resume probes again. | Record the class for local sizes of at least 4 GiB, the threshold the probe itself uses. | not executed | FtpTransfer.RecordProbeAsWrittenMissesFourGiB | FtpTransfer.RecordProbeSettlesClass |
| src/engine/server.cpp:154-208 | A bracketed host is stripped of its brackets without testing that something is left. | The URL `[]` parses, with an empty host. | Refuse `[]` as a missing host. | not executed | Server.EmptyBracketsAccepted | Server.EmptyBracketsRefused |
| src/engine/server.cpp:672-686 | In the URL format the user is escaped at line 673 and escaped again at line 686. | User `a b` gives `a%2520b@host` rather than `a%20b@host`. | Escape the user once. | not executed | ServerData.UrlUserEncodedTwice | ServerData.FormatShowsUser |
| src/interface/file_utils.cpp:62 | Bytes outside the safe set are written as `%x`, without padding. | The bytes 0x01 0x31 and the byte 0x11 both become `%11`. | Two hexadecimal digits per byte (`%02x`), so that the encoding decodes back. | not executed | FileUtils.AsWrittenCollides | FileUtils.DecodeEncode |
| FileZilla3/trunk/src/storj/fzstorj.cpp:89-93 | On an unterminated or malformed quoted argument `next_argument` clears the line and then slices it from `pos`, which is at least 1. | The line `"abc` throws `std::out_of_range`, which ends the helper. | Return an empty argument and consume the line. | not executed | StorjTrunk.UnterminatedQuoteThrows | StorjTrunk.NextArgAgrees |
| FileZilla3/branches/storj/src/storj/fzstorj.cpp:268-272 | `host` slices at `pos`, the command's first space (4), rather than at the `:`. | `host example.com:7777` sets host `exam` and reads the port from `le.com:7777`, which gives 0. | Split at the `:`. | not executed | StorjBranch.HostSliceWrong | StorjBranch.HostPortJoin |
| FileZilla3/branches/storj/src/storj/fzstorj.cpp:314-315 | `get` tests `pos` again rather than `pos2` after looking for the second space. | `get b i` is accepted, and its whole argument `b i` becomes the local file name. | Refuse a `get` without a file as "Bad arguments". | not executed | StorjBranch.GetWithoutFile | StorjBranch.GetRoundTrip |
