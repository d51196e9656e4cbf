/**
 * The ring of `BufferCount` buffer slots shared by readers and writers:
 * `readyCount` filled slots starting at `readyPos`, oldest first.
 * These functions give the abstract queue of a ring snapshot.
 */
module Ring {
  import opened Aio

  /** The slot `i` places after `pos`, wrapping around the ring. */
  function Slot(pos: nat, i: nat): (k: nat)
    ensures k < BufferCount
  {
    (pos + i) % BufferCount
  }

  /**
   * The queued slot contents, oldest first: `count` slots from `pos` on,
   * read off two copies of the ring laid end to end.
   */
  function Queue<T>(slots: seq<T>, pos: nat, count: nat): (q: seq<T>)
    requires |slots| == BufferCount && pos < BufferCount && count <= BufferCount
    ensures |q| == count
    ensures forall i :: 0 <= i < count ==> q[i] == slots[Slot(pos, i)]
  {
    (slots + slots)[pos..pos + count]
  }

  lemma SlotsDistinct(pos: nat, i: nat, j: nat)
    requires pos < BufferCount && i < j < BufferCount
    ensures Slot(pos, i) != Slot(pos, j)
  {
  }

  /** Taking the oldest element off the queue advances the start by one slot. */
  lemma {:induction false} QueuePop<T>(slots: seq<T>, pos: nat, count: nat)
    requires |slots| == BufferCount && pos < BufferCount && 0 < count <= BufferCount
    ensures Queue(slots, pos, count)[0] == slots[pos]
    ensures Queue(slots, pos, count)[1..] == Queue(slots, Slot(pos, 1), count - 1)
  {
    var q := Queue(slots, pos, count)[1..];
    var r := Queue(slots, Slot(pos, 1), count - 1);
    forall i | 0 <= i < count - 1
      ensures q[i] == r[i]
    {
      assert q[i] == slots[Slot(pos, i + 1)];
      assert Slot(Slot(pos, 1), i) == Slot(pos, i + 1);
    }
  }

  /** Filling the first free slot appends to the queue and leaves queued slots alone. */
  lemma {:induction false} QueuePush<T>(slots: seq<T>, pos: nat, count: nat, b: T)
    requires |slots| == BufferCount && pos < BufferCount && count < BufferCount
    ensures Queue(slots[Slot(pos, count) := b], pos, count + 1) == Queue(slots, pos, count) + [b]
  {
    var s2 := slots[Slot(pos, count) := b];
    var q := Queue(s2, pos, count + 1);
    var r := Queue(slots, pos, count) + [b];
    forall i | 0 <= i < count + 1
      ensures q[i] == r[i]
    {
      if i < count {
        SlotsDistinct(pos, i, count);
      }
    }
  }

  /** Writing a slot outside the queue leaves the queue unchanged. */
  lemma {:induction false} QueueFrame<T>(slots: seq<T>, pos: nat, count: nat, k: nat, b: T)
    requires |slots| == BufferCount && pos < BufferCount && count < BufferCount && k == Slot(pos, count)
    ensures Queue(slots[k := b], pos, count) == Queue(slots, pos, count)
  {
    var s2 := slots[k := b];
    forall i | 0 <= i < count
      ensures Queue(s2, pos, count)[i] == Queue(slots, pos, count)[i]
    {
      SlotsDistinct(pos, i, count);
    }
  }
}
