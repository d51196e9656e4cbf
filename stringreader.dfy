/**
 * `string_reader` and `buffer_reader` of the later engine: the data is held
 * in memory, `Seek` selects a window of it, and every `Read` hands out the
 * next piece of the window in the first buffer of the ring. The two classes
 * differ only in how they store the bytes, so one class models both.
 */
module StringReaders {
  import opened Common
  import opened Aio
  import opened Reader

  class StringReader {
    const startData: seq<byte>
    var data: seq<byte>
    var buffer: seq<byte>       // `buffers_[0]`, the only slot these readers use
    var startOffset: nat
    var size: nat
    var error: bool

    /**
     * Unless an error stopped the reader, what is left to read is the end
     * of the window `Seek` selected.
     */
    ghost predicate Valid()
      reads this
    {
      !error ==>
        startOffset + size <= |startData| && |data| <= size &&
        data == startData[startOffset + size - |data| .. startOffset + size]
    }

    /** The constructors: the whole data, nothing skipped. */
    constructor (d: seq<byte>)
      ensures Valid() && startData == d && data == d && size == |d| && startOffset == 0 && !error
    {
      startData, data := d, d;
      buffer := [];
      startOffset, size := 0, |d|;
      error := false;
    }

    /**
     * `read`: errors are sticky; otherwise the next `min(remaining,
     * BufferSize)` bytes are copied to the first buffer and consumed.
     */
    method Read() returns (r: ReadResult)
      requires Valid()
      modifies this`data, this`buffer
      ensures Valid()
      ensures old(error) ==> r == ReadResult(Error, []) && data == old(data)
      ensures !old(error) ==> r.result == Ok && r.buffer == buffer
      ensures !old(error) ==> r.buffer + data == old(data) && |r.buffer| == Min(|old(data)|, BufferSize)
      ensures !old(error) && old(data) != [] ==> Chunks(old(data)) == [r.buffer] + Chunks(data)
      ensures !old(error) && old(data) == [] ==> r.buffer == [] && data == []
    {
      if error {
        return ReadResult(Error, []);
      }
      var c := Min(|data|, BufferSize);
      buffer := data[..c];
      data := data[c..];
      assert buffer + data == old(data);
      r := ReadResult(Ok, buffer);
    }

    /**
     * `seek`: `offset == NoSize` keeps the current start offset; an offset
     * past the data, or a `maxSize` larger than what follows the offset,
     * sets the sticky error. Otherwise the window is `maxSize` bytes from
     * the offset, or everything after it when `maxSize == NoSize`.
     */
    method Seek(offset: nat, maxSize: nat) returns (r: AioResult)
      requires Valid()
      modifies this`startOffset, this`size, this`error, this`data
      ensures startOffset == (if offset != NoSize then offset else old(startOffset))
      ensures r == Ok <==>
        startOffset <= |startData| && (maxSize == NoSize || maxSize <= |startData| - startOffset)
      ensures Valid()
      ensures r == Ok ==> error == old(error)
      ensures r == Ok ==> size == (if maxSize == NoSize then |startData| - startOffset else maxSize)
      ensures r == Ok ==> data == startData[startOffset..startOffset + size]
      ensures r != Ok ==> error
    {
      if offset != NoSize {
        startOffset := offset;
      }
      if startOffset > |startData| {
        error := true;
        return Error;
      }
      size := |startData| - startOffset;
      if maxSize != NoSize {
        if maxSize > size {
          error := true;
          return Error;
        }
        size := maxSize;
      }
      data := startData[startOffset..startOffset + size];
      r := Ok;
    }
  }
}
