/** A growable byte buffer, and a view of it that skips a prefix. */
module Buffers {
  import opened Prelude
  import opened SliceWriter

  class Buffer {
    var data: Bytes

    constructor (data: Bytes)
      ensures this.data == data
    {
      this.data := data;
    }
  }

  /** Every position in the view lies `pos` bytes further on in the buffer. */
  class OffsetWriter {
    const inner: Buffer
    const pos: nat

    constructor (buffer: Buffer, skip: nat)
      ensures inner == buffer && pos == skip
    {
      inner := buffer;
      pos := skip;
    }

    ghost predicate Valid()
      reads this, inner
    {
      pos <= |inner.data|
    }

    function Skipped(): Bytes
      reads this, inner
      requires Valid()
    {
      inner.data[..pos]
    }

    function View(): Bytes
      reads this, inner
      requires Valid()
    {
      inner.data[pos..]
    }

    method SetView(data: Bytes)
      requires Valid() && |data| == |View()|
      modifies inner
      ensures Valid() && Skipped() == old(Skipped()) && View() == data
    {
      inner.data := inner.data[..pos] + data;
    }

    /** As in the slice writer insertion and removal splice; positions outside the view abort. */
    method BufferInsert(at: nat, data: Bytes) returns (outcome: Outcome)
      requires Valid()
      modifies inner
      ensures outcome == if at <= |old(View())| then Done else Panics
      ensures Valid() && Skipped() == old(Skipped())
      ensures View() == if outcome == Done then Spliced(old(View()), at, at, data) else old(View())
    {
      if pos + at > |inner.data| {
        return Panics;
      }
      inner.data := inner.data[..pos + at] + data + inner.data[pos + at..];
      return Done;
    }

    method BufferRemove(start: nat, end: nat) returns (outcome: Outcome)
      requires Valid()
      modifies inner
      ensures outcome == if start <= end <= |old(View())| then Done else Panics
      ensures Valid() && Skipped() == old(Skipped())
      ensures View() == if outcome == Done then Spliced(old(View()), start, end, []) else old(View())
    {
      if start > end || pos + end > |inner.data| {
        return Panics;
      }
      inner.data := inner.data[..pos + start] + inner.data[pos + end..];
      return Done;
    }
  }
}
