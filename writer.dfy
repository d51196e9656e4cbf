/**
 * The file writer of the transfer engine (`writer_base` and `file_writer`):
 * the consumer fills ring buffers and hands them back with
 * `GetWriteBuffer`/`Finalize`, a background worker writes the oldest queued
 * buffer to the file.
 *
 * As for the readers, one iteration of the worker's `entry()` loop is one
 * `WorkerStep`, the `write_ready_event` it posts is the `events` counter
 * and the condition-variable signal is the `wakeups` counter. The file is a
 * byte sequence; what each OS write call returns is an oracle argument.
 */
module Writer {
  import opened Common
  import opened Aio
  import opened Ring

  /**
   * `get_write_buffer_result`: for `Ok`, the slot whose (emptied) buffer the
   * consumer is to fill next.
   */
  datatype WriteBuffer = WriteBuffer(result: AioResult, slot: Option<nat>)

  /**
   * What one `file_.write` call returns, given the bytes still to write,
   * and whether `close()` set `quit_` while it ran.
   */
  datatype WriteCall = WriteCall(written: int, closed: bool)

  /**
   * The file after opening it for writing at `offset`: truncated there,
   * and zero-filled up to it when the file was shorter.
   */
  function TruncateAt(data: seq<byte>, offset: nat): (r: seq<byte>)
    ensures |r| == offset
    ensures offset <= |data| ==> r == data[..offset]
    ensures offset > |data| ==> r[..|data|] == data && forall i :: |data| <= i < offset ==> r[i] == 0
  {
    if offset <= |data| then data[..offset] else data + seq(offset - |data|, _ => 0)
  }

  /**
   * `file_writer`. The ghost state records every buffer the consumer
   * submitted and every buffer the worker took off the ring; `base` is the
   * file as `Open` left it.
   */
  class FileWriter {
    var buffers: seq<seq<byte>>     // the ring's slots
    const sizes: SizeCache
    var fileData: seq<byte>         // the file's contents
    var readyPos: nat
    var readyCount: nat
    var processing: bool
    var handlerWaiting: bool
    var error: bool
    var quit: bool
    var running: bool               // the worker's loop has not left yet
    var events: nat                 // write_ready_event posted to the handler
    var wakeups: nat                // signals to the worker

    ghost var waits: nat
    ghost var base: seq<byte>
    ghost var submitted: seq<seq<byte>>
    ghost var retired: seq<seq<byte>>

    ghost function Queued(): seq<seq<byte>>
      reads this
      requires |buffers| == BufferCount && readyPos < BufferCount && readyCount <= BufferCount
    {
      Queue(buffers, readyPos, readyCount)
    }

    /** FIFO order of the ring and the handler handshake. */
    ghost predicate RingInv()
      reads this
    {
      |buffers| == BufferCount && readyPos < BufferCount && readyCount <= BufferCount &&
      events + (if handlerWaiting then 1 else 0) <= waits &&
      retired + Queued() == submitted &&
      (running ==> !error && !quit)
    }

    /**
     * The ring invariant and, unless a write failed or `close()` cut one
     * short, a file that holds exactly the retired buffers after `base`.
     */
    ghost predicate Inv()
      reads this
    {
      RingInv() && (!error && !quit ==> fileData == base + Flatten(retired))
    }

    /** A buffer handed out with `ok` has a free slot to go back to. */
    ghost predicate Valid()
      reads this
    {
      Inv() && (processing ==> readyCount < BufferCount)
    }

    /** A writer for a file whose current contents are `existing`, not yet opened. */
    constructor (existing: seq<byte>)
      ensures Valid() && fileData == existing && fresh(sizes)
      ensures readyCount == 0 && !processing && !handlerWaiting && !running && !error && !quit
      ensures submitted == [] && retired == []
    {
      buffers := seq(BufferCount, _ => []);
      sizes := new SizeCache();
      fileData := existing;
      readyPos, readyCount := 0, 0;
      processing, handlerWaiting, error, quit, running := false, false, false, false, false;
      events, wakeups, waits := 0, 0, 0;
      base, submitted, retired := existing, [], [];
    }

    /** `file_writer::signal_capacity`: wake the worker. */
    method SignalCapacity()
      modifies this`wakeups
      ensures wakeups == old(wakeups) + 1
    {
      wakeups := wakeups + 1;
    }

    /**
     * Store the filled buffer in the first free slot; the worker is woken
     * when the ring was empty.
     */
    method Submit(written: seq<byte>)
      requires Valid() && processing
      modifies this`buffers, this`readyCount, this`submitted, this`wakeups
      ensures Inv()
      ensures readyCount == old(readyCount) + 1
      ensures Queued() == old(Queued()) + [written] && submitted == old(submitted) + [written]
      ensures wakeups == old(wakeups) + (if old(readyCount) == 0 then 1 else 0)
    {
      QueuePush(buffers, readyPos, readyCount, written);
      assert retired + (Queued() + [written]) == (retired + Queued()) + [written];
      buffers := buffers[Slot(readyPos, readyCount) := written];
      submitted := submitted + [written];
      if readyCount == 0 {
        SignalCapacity();
      }
      readyCount := readyCount + 1;
    }

    /**
     * `writer_base::get_write_buffer`. Errors are sticky; a non-empty buffer
     * filled after an `ok` is queued; then the caller either waits for an
     * event (the ring is full) or gets the next free slot.
     */
    method GetWriteBuffer(lastWritten: seq<byte>) returns (r: WriteBuffer)
      requires Valid()
      modifies this
      ensures Valid()
      ensures old(error) ==> r == WriteBuffer(Error, None) && unchanged(this)
      ensures !old(error) ==> r.result != Error && !error
      ensures !old(error) && old(processing) && lastWritten != [] ==>
        Queued() == old(Queued()) + [lastWritten] && submitted == old(submitted) + [lastWritten] &&
        wakeups == old(wakeups) + (if old(readyCount) == 0 then 1 else 0)
      ensures !old(error) && !(old(processing) && lastWritten != []) ==>
        Queued() == old(Queued()) && submitted == old(submitted) && wakeups == old(wakeups)
      ensures r.result == Ok <==> !old(error) && readyCount < BufferCount
      ensures r.result == Ok ==> processing && r.slot == Some(Slot(readyPos, readyCount)) && waits == old(waits)
      ensures r.result == Wait ==> r.slot == None && handlerWaiting && !processing && waits == old(waits) + 1
      ensures retired == old(retired) && fileData == old(fileData) && running == old(running) && events == old(events)
    {
      if error {
        return WriteBuffer(Error, None);
      }
      if processing && lastWritten != [] {
        Submit(lastWritten);
      }
      if readyCount >= BufferCount {
        handlerWaiting := true;
        processing := false;
        waits := waits + 1;
        r := WriteBuffer(Wait, None);
      } else {
        processing := true;
        r := WriteBuffer(Ok, Some(Slot(readyPos, readyCount)));
      }
    }

    /**
     * `file_writer::finalize`: queue the last filled buffer, then succeed
     * only once the worker has written everything; until then the caller
     * waits for an event.
     */
    method Finalize(lastWritten: seq<byte>) returns (r: AioResult)
      requires Valid()
      modifies this
      ensures Valid()
      ensures old(error) ==> r == Error && unchanged(this)
      ensures !old(error) ==> r != Error && !error
      ensures !old(error) && old(processing) && lastWritten != [] ==>
        !processing && Queued() == old(Queued()) + [lastWritten] && submitted == old(submitted) + [lastWritten]
      ensures !old(error) && !(old(processing) && lastWritten != []) ==>
        processing == old(processing) && Queued() == old(Queued()) && submitted == old(submitted)
      ensures r == Ok <==> !old(error) && readyCount == 0
      ensures r == Ok && !quit ==> fileData == base + Flatten(submitted)
      ensures r == Wait ==> handlerWaiting && waits == old(waits) + 1
      ensures retired == old(retired) && fileData == old(fileData) && running == old(running) && events == old(events)
    {
      if error {
        return Error;
      }
      if processing && lastWritten != [] {
        Submit(lastWritten);
        processing := false;
      }
      if readyCount > 0 {
        handlerWaiting := true;
        waits := waits + 1;
        return Wait;
      }
      assert retired == submitted;
      r := Ok;
    }

    /**
     * The inner loop of `file_writer::entry`: write `b` until it is all
     * written, a write call fails (sets `error`) or `close()` ran meanwhile
     * (`closed`). Every call appends what it wrote to the file, so the file
     * always grows by a prefix of `b`.
     */
    method WriteOut(b: seq<byte>, calls: seq<byte> -> WriteCall) returns (closed: bool, done: nat)
      requires !error && !quit
      modifies this`fileData, this`error, this`quit
      ensures done <= |b| && fileData == old(fileData) + b[..done]
      ensures closed ==> quit && !error
      ensures !closed ==> !quit && (error <==> done < |b|)
    {
      done := 0;
      closed := false;
      while done < |b|
        invariant done <= |b| && fileData == old(fileData) + b[..done]
        invariant !error && !quit
        decreases |b| - done
      {
        var call := calls(b[done..]);
        if call.written > 0 {
          var n := Min(call.written, |b| - done);
          assert b[..done + n] == b[..done] + b[done..done + n];
          fileData := fileData + b[done..done + n];
          done := done + n;
        }
        if call.closed {
          quit := true;
          return true, done;
        }
        if call.written <= 0 {
          error := true;
          return false, done;
        }
      }
    }

    /**
     * One iteration of `file_writer::entry` that is not a wait on the
     * condition variable. With nothing queued, a waiting handler is told and
     * the loop ends; otherwise the oldest buffer is written out. The loop's
     * own test of `quit_` and `error_` is left out: only `close()`, which
     * also stops the worker, and the worker itself set them.
     */
    method WorkerStep(calls: seq<byte> -> WriteCall)
      requires Valid()
      modifies this
      ensures Valid()
      ensures !old(running) ==> unchanged(this)
      ensures old(running) && old(readyCount) == 0 ==>
        readyCount == 0 && !handlerWaiting && running == !old(handlerWaiting) &&
        events == old(events) + (if old(handlerWaiting) then 1 else 0) && fileData == old(fileData)
      ensures old(running) && old(readyCount) > 0 ==>
        |old(fileData)| <= |fileData| <= |old(fileData)| + |old(Queued())[0]| &&
        fileData == old(fileData) + old(Queued())[0][..|fileData| - |old(fileData)|]
      ensures old(running) && old(readyCount) > 0 && !quit ==>
        Queued() == old(Queued())[1..] && retired == old(retired) + [old(Queued())[0]] &&
        !handlerWaiting && events == old(events) + (if old(handlerWaiting) then 1 else 0)
      ensures old(running) && old(readyCount) > 0 && !quit && !error ==>
        running && fileData == old(fileData) + old(Queued())[0]
      ensures old(running) && old(readyCount) > 0 && (quit || error) ==> !running
      ensures submitted == old(submitted) && processing == old(processing)
    {
      if !running {
        return;
      }
      if readyCount == 0 {
        if handlerWaiting {
          NotifyHandler();
          running := false;
        }
        return;
      }
      WriteOldest(calls);
    }

    /**
     * Write the oldest queued buffer, looping over partial writes; take it
     * off the ring whether or not the writes succeeded, unless `close()`
     * ran meanwhile, and tell a waiting handler. A failed write ends the
     * worker's loop.
     */
    method WriteOldest(calls: seq<byte> -> WriteCall)
      requires Valid() && running && readyCount > 0
      modifies this
      ensures Valid()
      ensures |old(fileData)| <= |fileData| <= |old(fileData)| + |old(Queued())[0]| &&
        fileData == old(fileData) + old(Queued())[0][..|fileData| - |old(fileData)|]
      ensures !quit ==>
        Queued() == old(Queued())[1..] && retired == old(retired) + [old(Queued())[0]] &&
        !handlerWaiting && events == old(events) + (if old(handlerWaiting) then 1 else 0)
      ensures !quit && !error ==> running && fileData == old(fileData) + old(Queued())[0]
      ensures quit || error ==> !running
      ensures submitted == old(submitted) && processing == old(processing)
    {
      QueuePop(buffers, readyPos, readyCount);
      var b := buffers[readyPos];
      var closed, done := WriteOut(b, calls);
      if closed {
        running := false;
        return;
      }
      if error {
        running := false;
      } else {
        assert b[..done] == b;
      }
      Retire(b);
      NotifyHandler();
    }

    /** Take the oldest buffer, now written, off the ring. */
    method Retire(b: seq<byte>)
      requires RingInv() && readyCount > 0 && b == Queued()[0]
      requires !error && !quit ==> fileData == base + Flatten(retired) + b
      requires processing ==> readyCount <= BufferCount
      modifies this`readyPos, this`readyCount, this`retired
      ensures Inv()
      ensures old(processing) ==> processing && readyCount < BufferCount
      ensures readyCount == old(readyCount) - 1
      ensures Queued() == old(Queued())[1..] && retired == old(retired) + [b]
    {
      QueuePop(buffers, readyPos, readyCount);
      FlattenAppend(retired, b);
      assert (retired + [b]) + Queued()[1..] == retired + Queued();
      retired := retired + [b];
      readyPos := Slot(readyPos, 1);
      readyCount := readyCount - 1;
    }

    /** A consumer that was told to wait gets a `write_ready_event`. */
    method NotifyHandler()
      requires Inv()
      modifies this`handlerWaiting, this`events
      ensures Inv() && !handlerWaiting
      ensures events == old(events) + (if old(handlerWaiting) then 1 else 0)
    {
      if handlerWaiting {
        handlerWaiting := false;
        events := events + 1;
      }
    }

    /**
     * `file_writer::open` of a file whose contents are `existing`; the flags
     * are what `allocate_memory`, opening the file, seeking to `offset`,
     * truncating there and spawning the worker return. Offset 0 creates an
     * empty file; otherwise the existing file is cut at `offset`.
     */
    method Open(offset: nat, memoryOk: bool, fileOpened: bool, seekOk: bool, truncated: bool, spawned: bool)
      returns (r: AioResult)
      requires Valid()
      requires readyCount == 0 && !processing && !running && !error && !quit && submitted == [] && retired == []
      modifies this
      ensures Valid()
      ensures r == Ok <==> memoryOk && fileOpened && (offset == 0 || (seekOk && truncated)) && spawned
      ensures r == Ok ==> running && fileData == TruncateAt(old(fileData), offset) && base == fileData
      ensures r != Ok ==> !running
      ensures readyCount == 0 && !error && submitted == [] && retired == []
    {
      if !memoryOk {
        return Error;
      }
      if !fileOpened {
        return Error;
      }
      if offset == 0 {
        fileData := [];
      } else {
        if !seekOk || !truncated {
          return Error;
        }
        fileData := TruncateAt(fileData, offset);
      }
      base := fileData;
      if !spawned {
        return Error;
      }
      running := true;
      r := Ok;
    }

    /** `file_writer::size`: asked once (`probe` is the file-system answer), then remembered. */
    method Size(probe: int) returns (s: nat)
      modifies sizes
      ensures old(sizes.cached).Some? ==> s == old(sizes.cached).value
      ensures old(sizes.cached).None? ==> s == (if probe < 0 then NoSize else probe)
      ensures sizes.cached == Some(s)
    {
      s := sizes.Get(probe);
    }

    /** `file_writer::close`: stop the worker, then drop every queued buffer. */
    method Close()
      modifies this
      ensures quit && !running && readyCount == 0
      ensures error == old(error) && fileData == old(fileData)
    {
      quit := true;
      running := false;
      readyCount := 0;
    }
  }
}
