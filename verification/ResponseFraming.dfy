/** Staging a serialised response as a frame in a connection's write buffer. */
module ResponseFraming {
  import opened Bytes
  import opened Frames
  import opened ReusableBuffers

  const MAX_OUTBOUND_FRAME_SIZE: nat := 64 * 1024

  predicate Stageable(payload: seq<byte>) {
    0 < |payload| <= MAX_OUTBOUND_FRAME_SIZE
  }

  /** The write queue after a payload is staged into it. */
  function Staged(buffer: BufferModel, payload: seq<byte>): BufferModel {
    BufferModel(0, FrameOf(payload), Max(buffer.size, HEADER_SIZE + |payload|))
  }

  /**
   * Frames the payload into the buffer if its size is allowed and nothing is pending there, growing the
   * storage when it has to; otherwise refuses and leaves the queue as it was.
   */
  method StageResponseFrame(payload: seq<byte>, buffer: ReusableBuffer) returns (staged: bool)
    requires buffer.Valid()
    modifies buffer, buffer.storage
    ensures buffer.Valid()
    ensures buffer.storage == old(buffer.storage) || fresh(buffer.storage)
    ensures staged <==> Stageable(payload) && old(buffer.Model()).data == []
    ensures buffer.Model() == if staged then Staged(old(buffer.Model()), payload) else old(buffer.Model())
  {
    if |payload| == 0 || |payload| > MAX_OUTBOUND_FRAME_SIZE {
      return false;
    }
    if buffer.ReadableBytes() != 0 {
      return false;
    }
    buffer.Reserve(HEADER_SIZE + |payload|);
    buffer.readOffset, buffer.writeOffset := 0, 0;
    var frame := HeaderOf(|payload|) + payload;
    buffer.FillWritableRegion(frame);
    buffer.writeOffset := HEADER_SIZE + |payload|;
    assert buffer.storage[0..|frame|] == frame;
    return true;
  }

  /**
   * Round trip: whatever a buffer held before, staging a payload of an allowed size and extracting with a limit
   * at least as large gives the payload back, and consuming that frame leaves the buffer empty.
   */
  lemma StagedFrameRoundTrip(buffer: BufferModel, payload: seq<byte>, maxFrame: nat)
    requires 1 <= |payload| <= 65536 && |payload| <= maxFrame
    ensures Stageable(payload)
    ensures Extract(Staged(buffer, payload).data, maxFrame) == FrameReady(payload)
    ensures Staged(buffer, payload).Consumed(HEADER_SIZE + |payload|).data == []
    ensures Staged(buffer, payload).Valid()
  {
    ExtractFramed(payload, [], maxFrame);
    assert FrameOf(payload) + [] == FrameOf(payload);
  }
}
