/** The reusable byte buffer of a connection, refined to a bounded byte queue. */
module ReusableBuffers {
  import opened Bytes
  import opened Frames

  /** The queue a buffer stands for: its unread bytes, where they start, and the storage size. */
  datatype BufferModel = BufferModel(start: nat, data: seq<byte>, size: nat) {
    predicate Valid() {
      start + |data| <= size
    }

    /** The size of the writable region behind the unread bytes. */
    function Room(): (room: nat)
      ensures Valid() ==> room == size - start - |data|
    {
      if start + |data| > size then 0 else size - start - |data|
    }

    function Appended(bytes: seq<byte>): BufferModel {
      this.(data := data + bytes)
    }

    /** A prefix is dropped; an emptied queue starts again at the front. */
    function Consumed(n: nat): BufferModel {
      if n >= |data| then this.(start := 0, data := []) else this.(start := start + n, data := data[n..])
    }

    function Compacted(): BufferModel {
      this.(start := 0)
    }

    function Reserved(capacity: nat): BufferModel {
      this.(size := Max(size, capacity))
    }
  }

  class ReusableBuffer {
    var storage: array<byte>
    var readOffset: nat
    var writeOffset: nat

    ghost predicate Valid()
      reads this
    {
      readOffset <= writeOffset <= storage.Length
    }

    ghost function Model(): (m: BufferModel)
      requires Valid()
      reads this, storage
      ensures m.Valid()
    {
      BufferModel(readOffset, storage[readOffset..writeOffset], storage.Length)
    }

    constructor ()
      ensures Valid() && fresh(storage) && Model() == BufferModel(0, [], 0)
    {
      storage := new byte[0];
      readOffset, writeOffset := 0, 0;
    }

    function ReadableBytes(): nat
      requires Valid()
      reads this
    {
      writeOffset - readOffset
    }

    function WritableBytes(): nat
      requires Valid()
      reads this
    {
      storage.Length - writeOffset
    }

    /** Grows the storage to the capacity, never shrinks it, and keeps every unread byte. */
    method Reserve(capacity: nat)
      requires Valid()
      modifies this`storage
      ensures Valid() && Model() == old(Model()).Reserved(capacity)
      ensures storage == old(storage) || fresh(storage)
    {
      if storage.Length < capacity {
        var grown := new byte[capacity](_ => 0);
        for i := 0 to storage.Length
          invariant fresh(grown) && storage == old(storage)
          invariant storage[..] == old(storage[..]) && grown[..i] == storage[..i]
        {
          grown[i] := storage[i];
        }
        assert grown[readOffset..writeOffset] == storage[..][readOffset..writeOffset];
        storage := grown;
      }
    }

    /** What a kernel read (or memcpy) does to the writable region: bytes land behind the unread ones, uncommitted. */
    method FillWritableRegion(bytes: seq<byte>)
      requires Valid() && |bytes| <= WritableBytes()
      modifies storage
      ensures Valid() && Model() == old(Model())
      ensures storage[writeOffset..writeOffset + |bytes|] == bytes
    {
      for i := 0 to |bytes|
        invariant storage[..writeOffset] == old(storage[..writeOffset])
        invariant storage[writeOffset..writeOffset + i] == bytes[..i]
      {
        storage[writeOffset + i] := bytes[i];
      }
      assert storage[readOffset..writeOffset] == storage[..writeOffset][readOffset..];
    }

    /** Appends the bytes lying at the front of the writable region; a count beyond the storage is clamped. */
    method CommitWrite(bytesWritten: nat)
      requires Valid()
      modifies this`writeOffset
      ensures Valid()
      ensures Model() == old(Model()).Appended(
                old(storage[writeOffset..writeOffset + Min(bytesWritten, WritableBytes())]))
    {
      writeOffset := Min(writeOffset + bytesWritten, storage.Length);
    }

    /** Classifies the head of the queue exactly as the pure decoder does, and changes nothing. */
    method TryExtractFrame(maxFrameSize: nat) returns (status: Extracted)
      requires Valid()
      ensures status == Extract(Model().data, maxFrameSize)
    {
      ghost var data := Model().data;
      var totalBytes := ReadableBytes();
      if totalBytes < HEADER_SIZE {
        return NeedMoreData;
      }
      var payloadLength := LengthOf(storage[readOffset..readOffset + HEADER_SIZE]);
      assert storage[readOffset..readOffset + HEADER_SIZE] == data[..HEADER_SIZE];
      assert payloadLength == LengthOf(data[..HEADER_SIZE]);
      if payloadLength == 0 || payloadLength > maxFrameSize {
        return InvalidLength;
      }
      if totalBytes < HEADER_SIZE + payloadLength {
        return NeedMoreData;
      }
      var payloadStart := readOffset + HEADER_SIZE;
      var payload := storage[payloadStart..payloadStart + payloadLength];
      assert |data| == totalBytes && forall k :: 0 <= k < |data| ==> data[k] == storage[readOffset + k];
      assert payload == data[HEADER_SIZE..HEADER_SIZE + payloadLength];
      return FrameReady(payload);
    }

    /** Drops a prefix of the queue. */
    method ConsumeFrame(totalFrameBytes: nat)
      requires Valid()
      modifies this`readOffset, this`writeOffset
      ensures Valid() && Model() == old(Model()).Consumed(totalFrameBytes)
    {
      readOffset := Min(readOffset + totalFrameBytes, writeOffset);
      if readOffset == writeOffset {
        readOffset, writeOffset := 0, 0;
      }
    }

    /** Moves the unread bytes to the front in place; the queue itself does not change. */
    method Compact()
      requires Valid()
      modifies this`readOffset, this`writeOffset, storage
      ensures Valid() && Model() == old(Model()).Compacted()
    {
      if readOffset == 0 {
        return;
      }
      var unreadBytes := ReadableBytes();
      for i := 0 to unreadBytes
        invariant readOffset == old(readOffset) && writeOffset == old(writeOffset)
        invariant storage[..i] == old(storage[readOffset..readOffset + i])
        invariant forall k :: i <= k < storage.Length ==> storage[k] == old(storage[k])
      {
        storage[i] := storage[readOffset + i];
      }
      readOffset, writeOffset := 0, unreadBytes;
      assert storage[0..unreadBytes] == storage[..unreadBytes];
    }
  }
}
