/**
 * Readers of the transfer engine (`reader_base` and its subclasses
 * `file_reader`, `memory_reader` and `string_reader`): a producer fills the
 * ring of buffers, the consumer takes them with `read()`. `FileReader` and
 * `MemoryReader` each carry `reader_base::read` together with their own
 * `signal_capacity`, which `read()` calls when a slot of a full ring frees up.
 *
 * The background thread of `file_reader` is one `WorkerStep` per iteration of
 * its `entry()` loop; the event it posts to the handler is the `events`
 * counter, and the condition-variable signal of `signal_capacity` is the
 * `wakeups` counter. The file is a byte sequence and each OS read call an
 * outcome parameter.
 */
module Reader {
  import opened Common
  import opened Aio
  import opened Ring

  datatype ReadResult = ReadResult(result: AioResult, buffer: seq<byte>)

  /**
   * What one `file_.read` call does: fail, or deliver at most `limit` bytes
   * (a short read), never more than the buffer holds or the file has left.
   */
  datatype ReadOutcome = ReadFailed | ReadUpTo(limit: Address)

  /** The chunks a memory reader hands out for `d`: `BufferSize` bytes at a time. */
  function Chunks(d: seq<byte>): (cs: seq<seq<byte>>)
    decreases |d|
  {
    if d == [] then [] else
      var c := Min(|d|, BufferSize);
      [d[..c]] + Chunks(d[c..])
  }

  /** The chunks reassemble the data; each is non-empty and fits one buffer. */
  lemma {:induction false} ChunksReassemble(d: seq<byte>)
    ensures Flatten(Chunks(d)) == d
    ensures forall i :: 0 <= i < |Chunks(d)| ==> 0 < |Chunks(d)[i]| <= BufferSize
    ensures forall i :: 0 <= i < |Chunks(d)| - 1 ==> |Chunks(d)[i]| == BufferSize
    decreases |d|
  {
    if d != [] {
      var c := Min(|d|, BufferSize);
      ChunksReassemble(d[c..]);
      FlattenCons(d[..c], Chunks(d[c..]));
      assert d[..c] + d[c..] == d;
      var cs := Chunks(d);
      assert cs == [d[..c]] + Chunks(d[c..]);
      forall i | 0 <= i < |cs|
        ensures 0 < |cs[i]| <= BufferSize
      {
        if i > 0 { assert cs[i] == Chunks(d[c..])[i - 1]; }
      }
      forall i | 0 <= i < |cs| - 1
        ensures |cs[i]| == BufferSize
      {
        if i > 0 {
          assert cs[i] == Chunks(d[c..])[i - 1];
        } else {
          assert Chunks(d[c..]) != [];
          assert d[c..] != [];
        }
      }
    }
  }


  /**
   * What the file reader's queue keeps: the buffers the consumer released
   * followed by the queued ones are every buffer the worker filled, in
   * order; no buffer exceeds `BufferSize`; an empty buffer (end of file)
   * can only be the last one and only once the worker has stopped.
   */
  ghost predicate QueueInv(q: seq<seq<byte>>, delivered: seq<seq<byte>>, produced: seq<seq<byte>>, eofSeen: bool, running: bool)
  {
    delivered + q == produced &&
    (forall i :: 0 <= i < |q| ==> |q[i]| <= BufferSize) &&
    (forall i :: 0 <= i < |q| && q[i] == [] ==> i == |q| - 1 && eofSeen && !running)
  }

  /** Releasing the oldest buffer moves it to the released ones. */
  lemma QueueInvPop(q: seq<seq<byte>>, delivered: seq<seq<byte>>, produced: seq<seq<byte>>, eofSeen: bool, running: bool)
    requires QueueInv(q, delivered, produced, eofSeen, running) && q != []
    ensures QueueInv(q[1..], delivered + [q[0]], produced, eofSeen, running)
  {
    assert q == [q[0]] + q[1..];
    forall i | 0 <= i < |q[1..]| && q[1..][i] == []
      ensures i == |q[1..]| - 1 && eofSeen && !running
    {
      assert q[1..][i] == q[i + 1];
    }
  }

  /** Queuing a freshly read chunk; an empty chunk is the end of the file. */
  lemma QueueInvPush(q: seq<seq<byte>>, delivered: seq<seq<byte>>, produced: seq<seq<byte>>, chunk: seq<byte>)
    requires QueueInv(q, delivered, produced, false, true) && |chunk| <= BufferSize
    ensures QueueInv(q + [chunk], delivered, produced + [chunk], chunk == [], chunk != [])
  {
    var q2 := q + [chunk];
    forall i | 0 <= i < |q|
      ensures q2[i] == q[i] && q[i] != []
    {
    }
  }

  /** The worker leaving its loop keeps the invariant. */
  lemma QueueInvStop(q: seq<seq<byte>>, delivered: seq<seq<byte>>, produced: seq<seq<byte>>, eofSeen: bool)
    requires QueueInv(q, delivered, produced, eofSeen, true)
    ensures QueueInv(q, delivered, produced, eofSeen, false)
  {
  }

  /** An empty buffer at the head is the last buffer the worker filled. */
  lemma QueueInvEof(q: seq<seq<byte>>, delivered: seq<seq<byte>>, produced: seq<seq<byte>>, eofSeen: bool, running: bool)
    requires QueueInv(q, delivered, produced, eofSeen, running) && q != [] && q[0] == []
    ensures produced == delivered + [[]] && eofSeen && !running
  {
    assert |q| == 1;
  }

  /**
   * What a read of at most `limit` bytes into one buffer returns at
   * position `pos` of `file`: nothing at or past the end.
   */
  function ReadAt(file: seq<byte>, pos: nat, limit: nat): (chunk: seq<byte>)
    ensures |chunk| <= BufferSize && |chunk| <= limit
    ensures pos + |chunk| <= |file| || chunk == []
  {
    if pos >= |file| then [] else file[pos..pos + Min(Min(limit, BufferSize), |file| - pos)]
  }

  /** A read returns the next bytes of the file; with room for a byte it returns none only at the end. */
  lemma ReadAtSlice(file: seq<byte>, pos: nat, limit: nat)
    ensures ReadAt(file, pos, limit) == [] || ReadAt(file, pos, limit) == file[pos..pos + |ReadAt(file, pos, limit)|]
    ensures limit > 0 ==> (ReadAt(file, pos, limit) == [] <==> pos >= |file|)
  {
  }

  /**
   * The chunks a run of read calls returns, starting at position `pos`;
   * `limits` says how many bytes each call was allowed to return.
   */
  function ReadRun(file: seq<byte>, pos: nat, limits: seq<Address>): (chunks: seq<seq<byte>>)
    ensures |chunks| == |limits|
    decreases |limits|
  {
    if limits == [] then []
    else
      var chunk := ReadAt(file, pos, limits[0]);
      [chunk] + ReadRun(file, pos + |chunk|, limits[1..])
  }

  /** The bytes of a run of read calls, in the order they were read. */
  function RunBytes(file: seq<byte>, pos: nat, limits: seq<Address>): (bytes: seq<byte>)
    decreases |limits|
  {
    if limits == [] then []
    else
      var chunk := ReadAt(file, pos, limits[0]);
      chunk + RunBytes(file, pos + |chunk|, limits[1..])
  }

  /** The bytes of a run are its chunks put together. */
  lemma {:induction false} RunBytesFlatten(file: seq<byte>, pos: nat, limits: seq<Address>)
    ensures Flatten(ReadRun(file, pos, limits)) == RunBytes(file, pos, limits)
    decreases |limits|
  {
    if limits != [] {
      var chunk := ReadAt(file, pos, limits[0]);
      var next := pos + |chunk|;
      RunBytesFlatten(file, next, limits[1..]);
      FlattenCons(chunk, ReadRun(file, next, limits[1..]));
    }
  }

  /** Two adjacent slices of the file make one. */
  lemma SliceGlue(file: seq<byte>, a: nat, b: nat, c: nat)
    requires a <= b <= c <= |file|
    ensures file[a..b] + file[b..c] == file[a..c]
  {
  }

  /** The bytes of a run from a position inside the file are the file's next bytes. */
  lemma {:induction false} RunBytesSlice(file: seq<byte>, pos: nat, limits: seq<Address>)
    requires pos <= |file|
    ensures pos + |RunBytes(file, pos, limits)| <= |file|
    ensures RunBytes(file, pos, limits) == file[pos..pos + |RunBytes(file, pos, limits)|]
    decreases |limits|
  {
    if limits != [] {
      var chunk := ReadAt(file, pos, limits[0]);
      var next := pos + |chunk|;
      var later := RunBytes(file, next, limits[1..]);
      ReadAtSlice(file, pos, limits[0]);
      RunBytesSlice(file, next, limits[1..]);
      SliceGlue(file, pos, next, next + |later|);
      assert chunk == file[pos..next];
    }
  }

  /**
   * Successive reads return the file in order and without gaps: the chunks
   * of a run put together are the bytes that follow the start position.
   */
  lemma ReadRunReassembles(file: seq<byte>, pos: nat, limits: seq<Address>)
    requires pos <= |file|
    ensures var bytes := Flatten(ReadRun(file, pos, limits));
      pos + |bytes| <= |file| && bytes == file[pos..pos + |bytes|]
  {
    RunBytesFlatten(file, pos, limits);
    RunBytesSlice(file, pos, limits);
  }

  /** Once the position is at the end, every read returns no bytes. */
  lemma {:induction false} ReadRunAfterEnd(file: seq<byte>, pos: nat, limits: seq<Address>)
    requires pos >= |file|
    ensures forall i :: 0 <= i < |limits| ==> ReadRun(file, pos, limits)[i] == []
    decreases |limits|
  {
    if limits != [] {
      ReadRunAfterEnd(file, pos, limits[1..]);
      var cs := ReadRun(file, pos, limits);
      forall i | 0 <= i < |limits|
        ensures cs[i] == []
      {
        if i > 0 {
          assert cs[i] == ReadRun(file, pos, limits[1..])[i - 1];
        }
      }
    }
  }

  /**
   * `file_reader`: a worker thread reads the file into the ring, the
   * consumer takes the buffers with `Read`.
   */
  class FileReader {
    var buffers: seq<seq<byte>>     // the ring's slots
    const sizes: SizeCache
    const file: seq<byte>
    var readyPos: nat
    var readyCount: nat
    var processing: bool
    var handlerWaiting: bool
    var error: bool
    var quit: bool
    var running: bool             // the worker's loop has not left yet
    var events: nat               // read_ready_event posted to the handler
    var wakeups: nat              // signals to the worker
    var filePos: nat
    var startOffset: nat

    ghost var waits: nat            // `wait` results handed to the consumer
    ghost var produced: seq<seq<byte>>   // every buffer the worker filled
    ghost var delivered: seq<seq<byte>>  // every buffer the consumer released
    ghost var eofSeen: bool         // the worker read 0 bytes

    /** The filled buffers, oldest first. */
    ghost function Queued(): seq<seq<byte>>
      reads this
      requires |buffers| == BufferCount && readyPos < BufferCount && readyCount <= BufferCount
    {
      Queue(buffers, readyPos, readyCount)
    }

    /**
     * The reader's state apart from the link between `processing` and the
     * ready count: the queue, the file position and the handler handshake.
     */
    ghost predicate Inv()
      reads this
    {
      |buffers| == BufferCount && readyPos < BufferCount && readyCount <= BufferCount &&
      events + (if handlerWaiting then 1 else 0) <= waits &&
      QueueInv(Queued(), delivered, produced, eofSeen, running) &&
      (running ==> !eofSeen && !quit)
    }

    /** The buffer handed out by the last `ok` is still queued. */
    ghost predicate Valid()
      reads this
    {
      Inv() && (processing ==> readyCount > 0)
    }

    /** A reader of a file with contents `contents`, not yet opened. */
    constructor (contents: seq<byte>)
      ensures Valid() && file == contents && fresh(sizes)
      ensures readyCount == 0 && !processing && !running && !error && !quit
      ensures produced == [] && delivered == [] && !eofSeen && startOffset == 0 && filePos == 0
    {
      buffers := seq(BufferCount, _ => []);
      sizes := new SizeCache();
      file := contents;
      readyPos, readyCount := 0, 0;
      processing, handlerWaiting, error, quit, running := false, false, false, false, false;
      events, wakeups, waits := 0, 0, 0;
      filePos, startOffset := 0, 0;
      produced, delivered, eofSeen := [], [], false;
    }

    /** `file_reader::signal_capacity`: wake the worker. */
    method SignalCapacity()
      modifies this`wakeups
      ensures wakeups == old(wakeups) + 1
    {
      wakeups := wakeups + 1;
    }

    /** The part of `read()` that releases the buffer handed out by the last `ok`. */
    method Release()
      requires Valid() && processing
      modifies this`readyPos, this`readyCount, this`delivered, this`wakeups
      ensures Inv()
      ensures readyCount == old(readyCount) - 1
      ensures Queued() == old(Queued())[1..] && delivered == old(delivered) + [old(Queued())[0]]
      ensures wakeups == old(wakeups) + (if old(readyCount) == BufferCount then 1 else 0)
    {
      QueuePop(buffers, readyPos, readyCount);
      QueueInvPop(Queued(), delivered, produced, eofSeen, running);
      delivered := delivered + [buffers[readyPos]];
      readyPos := Slot(readyPos, 1);
      if readyCount == BufferCount {
        SignalCapacity();
      }
      readyCount := readyCount - 1;
    }

    /**
     * `reader_base::read`. Errors are sticky; a call after an `ok` result
     * first releases the buffer handed out then; the oldest queued buffer is
     * handed out next, or the caller is told to wait for an event. The
     * source tests `error_` a second time before waiting; under its lock
     * nothing can have set it since the first test, so that branch is left
     * out.
     */
    method Read() returns (r: ReadResult)
      requires Valid()
      modifies this
      ensures Valid()
      ensures old(error) ==> r == ReadResult(Error, []) && unchanged(this)
      ensures !old(error) ==> r.result != Error && !error
      ensures !old(error) && old(processing) ==>
        Queued() == old(Queued())[1..] && delivered == old(delivered) + [old(Queued())[0]] &&
        wakeups == old(wakeups) + (if old(readyCount) == BufferCount then 1 else 0)
      ensures !old(error) && !old(processing) ==>
        Queued() == old(Queued()) && delivered == old(delivered) && wakeups == old(wakeups)
      ensures r.result == Ok <==> !old(error) && Queued() != []
      ensures r.result == Ok ==> processing && r.buffer == Queued()[0]
      ensures r.result == Wait ==> r.buffer == [] && handlerWaiting && !processing && waits == old(waits) + 1
      ensures r.result == Ok && r.buffer == [] ==> eofSeen && !running && produced == delivered + [[]]
      ensures events == old(events) && running == old(running) && filePos == old(filePos)
    {
      if error {
        return ReadResult(Error, []);
      }
      if processing {
        Release();
      }
      r := HandOut();
    }

    /** The part of `read()` that hands out the oldest queued buffer or asks the caller to wait. */
    method HandOut() returns (r: ReadResult)
      requires Inv() && !error
      modifies this`processing, this`handlerWaiting, this`waits
      ensures Valid() && r.result != Error
      ensures r.result == Ok <==> Queued() != []
      ensures r.result == Ok ==> processing && r.buffer == Queued()[0] && waits == old(waits)
      ensures r.result == Wait ==> r.buffer == [] && handlerWaiting && !processing && waits == old(waits) + 1
      ensures r.result == Ok && r.buffer == [] ==> eofSeen && !running && produced == delivered + [[]]
    {
      if readyCount > 0 {
        processing := true;
        QueuePop(buffers, readyPos, readyCount);
        r := ReadResult(Ok, buffers[readyPos]);
        if r.buffer == [] {
          QueueInvEof(Queued(), delivered, produced, eofSeen, running);
        }
      } else {
        handlerWaiting := true;
        processing := false;
        waits := waits + 1;
        r := ReadResult(Wait, []);
      }
    }

    /** The bytes one read call of the worker delivers. */
    function NextChunk(limit: nat): (chunk: seq<byte>)
      reads this`filePos
    {
      ReadAt(file, filePos, limit)
    }

    /**
     * One iteration of `file_reader::entry` that is not a wait on the
     * condition variable. `quitDuringRead` says that `close()` ran while
     * the read call was in progress.
     */
    method WorkerStep(outcome: ReadOutcome, quitDuringRead: bool)
      requires Valid()
      modifies this
      ensures Valid()
      ensures !old(running) ==> unchanged(this)
      ensures old(running) && old(error) ==>
        !running && readyCount == old(readyCount) && Queued() == old(Queued()) && events == old(events)
      ensures old(running) && !old(error) && old(readyCount) >= BufferCount ==> unchanged(this)
      ensures old(running) && !old(error) && old(readyCount) < BufferCount ==>
        readyPos == old(readyPos) && processing == old(processing) && delivered == old(delivered)
      ensures old(running) && !old(error) && old(readyCount) < BufferCount && quitDuringRead ==>
        quit && !running && readyCount == old(readyCount) && Queued() == old(Queued()) && events == old(events)
      ensures old(running) && !old(error) && old(readyCount) < BufferCount && !quitDuringRead ==> !handlerWaiting && events == old(events) + (if old(handlerWaiting) then 1 else 0)
      ensures old(running) && !old(error) && old(readyCount) < BufferCount && !quitDuringRead && outcome.ReadFailed? ==>
        error && !running && readyCount == old(readyCount) && Queued() == old(Queued())
      ensures old(running) && !old(error) && old(readyCount) < BufferCount && !quitDuringRead && outcome.ReadUpTo? ==>
        var chunk := old(NextChunk(outcome.limit));
        readyCount == old(readyCount) + 1 && Queued() == old(Queued()) + [chunk] &&
        produced == old(produced) + [chunk] && (running <==> chunk != []) && !error &&
        filePos == old(filePos) + |chunk|
    {
      if !running {
        return;
      }
      if error {
        Stop(false, false);
        return;
      }
      if readyCount >= BufferCount {
        return;
      }
      Iterate(outcome, quitDuringRead);
    }

    /** The body of the loop of `file_reader::entry` once there is a free slot. */
    method Iterate(outcome: ReadOutcome, quitDuringRead: bool)
      requires Valid() && running && !error && readyCount < BufferCount
      modifies this
      ensures Valid()
      ensures readyPos == old(readyPos) && processing == old(processing) && delivered == old(delivered)
      ensures quitDuringRead ==>
        quit && !running && readyCount == old(readyCount) && Queued() == old(Queued()) && events == old(events)
      ensures !quitDuringRead ==> !handlerWaiting && events == old(events) + (if old(handlerWaiting) then 1 else 0)
      ensures !quitDuringRead && outcome.ReadFailed? ==>
        error && !running && readyCount == old(readyCount) && Queued() == old(Queued())
      ensures !quitDuringRead && outcome.ReadUpTo? ==>
        var chunk := old(NextChunk(outcome.limit));
        readyCount == old(readyCount) + 1 && Queued() == old(Queued()) + [chunk] &&
        produced == old(produced) + [chunk] && (running <==> chunk != []) && !error &&
        filePos == old(filePos) + |chunk|
    {
      var slot := (readyPos + readyCount) % BufferCount;
      EmptySlot(slot);
      if quitDuringRead {
        Stop(true, false);
      } else {
        Complete(slot, outcome);
      }
    }

    /** The read call returned: queue what it read or record the failure, then wake the handler. */
    method Complete(slot: nat, outcome: ReadOutcome)
      requires Valid() && running && !error && readyCount < BufferCount && slot == Slot(readyPos, readyCount)
      modifies this
      ensures Valid()
      ensures readyPos == old(readyPos) && processing == old(processing) && delivered == old(delivered)
      ensures !handlerWaiting && events == old(events) + (if old(handlerWaiting) then 1 else 0)
      ensures outcome.ReadFailed? ==>
        error && !running && readyCount == old(readyCount) && Queued() == old(Queued())
      ensures outcome.ReadUpTo? ==>
        var chunk := old(NextChunk(outcome.limit));
        readyCount == old(readyCount) + 1 && Queued() == old(Queued()) + [chunk] &&
        produced == old(produced) + [chunk] && (running <==> chunk != []) && !error &&
        filePos == old(filePos) + |chunk|
    {
      if outcome.ReadUpTo? {
        Advance(slot, outcome.limit);
      } else {
        Stop(false, true);
      }
      NotifyHandler();
    }

    /** A consumer that was told to wait gets a `read_ready_event`. */
    method NotifyHandler()
      requires Valid()
      modifies this`handlerWaiting, this`events
      ensures Valid() && !handlerWaiting
      ensures events == old(events) + (if old(handlerWaiting) then 1 else 0)
    {
      if handlerWaiting {
        handlerWaiting := false;
        events := events + 1;
      }
    }

    /** The worker leaves its loop: `close()` set `quit_`, or the read failed and set `error_`. */
    method Stop(setQuit: bool, setError: bool)
      requires Valid() && running
      modifies this`running, this`quit, this`error
      ensures Valid() && !running
      ensures quit == (old(quit) || setQuit) && error == (old(error) || setError)
    {
      QueueInvStop(Queued(), delivered, produced, eofSeen);
      running := false;
      quit := quit || setQuit;
      error := error || setError;
    }

    /** `b.resize(0)` on the first free slot, outside the queue. */
    method EmptySlot(slot: nat)
      requires Valid() && running && readyCount < BufferCount && slot == Slot(readyPos, readyCount)
      modifies this`buffers
      ensures Valid() && Queued() == old(Queued())
    {
      QueueFrame(buffers, readyPos, readyCount, slot, []);
      buffers := buffers[slot := []];
    }

    /**
     * A successful read call: the file position moves past the bytes read,
     * they fill the slot, and a 0-byte read ends the loop.
     */
    method Advance(slot: nat, limit: Address)
      requires Valid() && running && readyCount < BufferCount && slot == Slot(readyPos, readyCount)
      modifies this`filePos, this`readyCount, this`produced, this`running, this`eofSeen, this`buffers
      ensures Valid()
      ensures readyCount == old(readyCount) + 1 && Queued() == old(Queued()) + [old(NextChunk(limit))]
      ensures produced == old(produced) + [old(NextChunk(limit))] && (running <==> old(NextChunk(limit)) != [])
      ensures filePos == old(filePos) + |old(NextChunk(limit))|
    {
      var chunk := ReadAt(file, filePos, limit);
      ReadAtSlice(file, filePos, limit);
      QueuePush(buffers, readyPos, readyCount, chunk);
      QueueInvPush(Queued(), delivered, produced, chunk);
      filePos := filePos + |chunk|;
      buffers := buffers[slot := chunk];
      readyCount := readyCount + 1;
      produced := produced + [chunk];
      running := chunk != [];
      eofSeen := chunk == [];
    }

    /**
     * `file_reader::open`; the flags are what `allocate_memory`, opening
     * the file, seeking to `offset` and spawning the worker return.
     */
    method Open(offset: nat, memoryOk: bool, fileOpened: bool, seekOk: bool, spawned: bool) returns (r: AioResult)
      requires Valid()
      requires readyCount == 0 && !processing && !running && !error && !quit && produced == [] && delivered == [] && !eofSeen
      modifies this
      ensures Valid()
      ensures r == Ok <==> memoryOk && fileOpened && (offset == 0 || seekOk) && spawned
      ensures r == Ok ==> running && startOffset == offset && filePos == offset
      ensures r != Ok ==> !running
      ensures readyCount == 0 && !error && produced == [] && delivered == []
    {
      if !memoryOk {
        return Error;
      }
      if !fileOpened {
        return Error;
      }
      startOffset := offset;
      filePos := offset;
      if offset > 0 && !seekOk {
        return Error;
      }
      if !spawned {
        return Error;
      }
      running := true;
      r := Ok;
    }

    /** `file_reader::rewind`: seek back to the start offset; a failed seek is sticky. */
    method Rewind(seekOk: bool) returns (r: AioResult)
      requires Valid()
      modifies this
      ensures Valid()
      ensures old(error) ==> r == Error && unchanged(this)
      ensures !old(error) && !seekOk ==> r == Error && error
      ensures !old(error) && seekOk ==> r == Ok && filePos == startOffset && !error
      ensures readyCount == old(readyCount) && readyPos == old(readyPos) && processing == old(processing)
    {
      if error {
        return Error;
      }
      if !seekOk {
        error := true;
        return Error;
      }
      filePos := startOffset;
      r := Ok;
    }

    /** `file_reader::size`: asked once (`probe` is the file-system answer), then remembered. */
    method Size(probe: int) returns (s: nat)
      modifies sizes
      ensures old(sizes.cached).Some? ==> s == old(sizes.cached).value
      ensures old(sizes.cached).None? ==> s == (if probe < 0 then NoSize else probe)
      ensures sizes.cached == Some(s)
    {
      s := sizes.Get(probe);
    }

    /** `file_reader::close`: stop the worker, then drop every ready buffer. */
    method Close()
      modifies this
      ensures quit && !running && readyCount == 0
      ensures error == old(error) && readyPos == old(readyPos)
    {
      quit := true;
      running := false;
      readyCount := 0;
    }
  }

  /**
   * `memory_reader` and `string_reader`: the data is in memory and every
   * `read()` copies its next chunk into the slot it hands out, so all slots
   * always count as ready.
   */
  class MemoryReader {
    var buffers: seq<seq<byte>>     // the ring's slots
    var readyPos: nat
    var readyCount: nat
    var processing: bool
    var handlerWaiting: bool
    var error: bool
    var startData: seq<byte>
    var data: seq<byte>

    ghost predicate Valid()
      reads this
    {
      |buffers| == BufferCount && readyPos < BufferCount && readyCount == BufferCount &&
      |data| <= |startData| && data == startData[|startData| - |data|..]
    }

    /** `memory_reader`'s constructor: not yet processing. */
    constructor (d: seq<byte>)
      ensures Valid()
      ensures startData == d && data == d && !processing && !error
    {
      buffers := seq(BufferCount, _ => []);
      readyPos, readyCount := 0, BufferCount;
      processing, handlerWaiting, error := false, false, false;
      startData, data := d, d;
    }

    /** `string_reader`'s constructor: already processing, so the first read fills a slot. */
    constructor OfString(d: seq<byte>)
      ensures Valid()
      ensures startData == d && data == d && processing && !error
    {
      buffers := seq(BufferCount, _ => []);
      readyPos, readyCount := 0, BufferCount;
      processing, handlerWaiting, error := true, false, false;
      startData, data := d, d;
    }

    /** `signal_capacity`: count the slot as ready and copy the next chunk into it. */
    method SignalCapacity()
      requires |buffers| == BufferCount && readyPos < BufferCount
      modifies this`readyCount, this`data, this`buffers
      ensures readyCount == old(readyCount) + 1
      ensures buffers == old(buffers)[readyPos := old(data)[..Min(|old(data)|, BufferSize)]]
      ensures data == old(data)[Min(|old(data)|, BufferSize)..]
    {
      readyCount := readyCount + 1;
      var c := Min(|data|, BufferSize);
      buffers := buffers[readyPos := data[..c]];
      data := data[c..];
    }

    /**
     * `reader_base::read` on a memory reader: once processing, every call
     * hands out the next chunk of at most `BufferSize` bytes, and empty
     * buffers once the data is used up.
     */
    method Read() returns (r: ReadResult)
      requires Valid()
      modifies this
      ensures Valid() && startData == old(startData) && error == old(error)
      ensures old(error) ==> r == ReadResult(Error, []) && unchanged(this)
      ensures !old(error) && old(processing) ==>
        r.result == Ok && r.buffer + data == old(data) && |r.buffer| == Min(|old(data)|, BufferSize) &&
        (old(data) != [] ==> Chunks(old(data)) == [r.buffer] + Chunks(data))
      ensures !old(error) && !old(processing) ==> r == ReadResult(Ok, old(buffers)[old(readyPos)]) && data == old(data)
      ensures !old(error) ==> processing && readyCount == BufferCount
    {
      if error {
        return ReadResult(Error, []);
      }
      if processing {
        readyPos := (readyPos + 1) % BufferCount;
        if readyCount == BufferCount {
          SignalCapacity();
        }
        readyCount := readyCount - 1;
        assert old(data)[..Min(|old(data)|, BufferSize)] + data == old(data);
      }
      // Every slot of a memory reader counts as ready, so the ready count
      // never drops to zero here and the `wait` branch is never taken.
      processing := true;
      r := ReadResult(Ok, buffers[readyPos]);
    }

    /**
     * `memory_reader::open`: fails when the offset lies past the data;
     * otherwise the data from `offset` on becomes the start data.
     */
    method Open(offset: nat, memoryOk: bool) returns (r: AioResult)
      requires Valid()
      modifies this
      ensures Valid()
      ensures r == Ok <==> memoryOk && offset <= |old(data)|
      ensures r != Ok ==> unchanged(this)
      ensures r == Ok ==> data == old(data)[offset..] && startData == data && processing && readyCount == BufferCount
    {
      if !memoryOk {
        return Error;
      }
      if offset > |data| {
        return Error;
      }
      data := data[offset..];
      startData := data;
      processing := true;
      readyCount := 8;
      r := Ok;
    }

    /** `rewind`: start over from the start data. */
    method Rewind() returns (r: AioResult)
      requires Valid()
      modifies this
      ensures Valid() && r == Ok
      ensures data == startData && startData == old(startData)
      ensures readyCount == old(readyCount) && readyPos == old(readyPos) && processing == old(processing)
    {
      data := startData;
      r := Ok;
    }

    /** `size()`: the length of the start data. */
    function Size(): (s: nat)
      reads this
      requires Valid()
      ensures s >= |data|
    {
      |startData|
    }
  }
}
