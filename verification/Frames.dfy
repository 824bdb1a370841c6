/** The wire format: a 4-byte big-endian payload length followed by the payload. */
module Frames {
  import opened Bytes

  const HEADER_SIZE: nat := 4

  function Pow256(k: nat): (p: nat)
    ensures p > 0
  {
    if k == 0 then 1 else 256 * Pow256(k - 1)
  }

  /** The k low bytes of a number, most significant first: htonl for k = 4. */
  function BigEndian(n: nat, k: nat): (b: seq<byte>)
    ensures |b| == k
    decreases k, n
  {
    if k == 0 then [] else BigEndian(n / 256, k - 1) + [n % 256]
  }

  function FromBigEndian(b: seq<byte>): (n: nat)
    ensures n < Pow256(|b|)
  {
    if b == [] then 0 else 256 * FromBigEndian(b[..|b| - 1]) + b[|b| - 1] as int
  }

  lemma {:induction false} BigEndianRoundTrip(n: nat, k: nat)
    requires n < Pow256(k)
    ensures FromBigEndian(BigEndian(n, k)) == n
    decreases k
  {
    if k > 0 {
      BigEndianRoundTrip(n / 256, k - 1);
      assert BigEndian(n, k)[..k - 1] == BigEndian(n / 256, k - 1);
    }
  }

  lemma {:induction false} BigEndianInverse(b: seq<byte>)
    ensures BigEndian(FromBigEndian(b), |b|) == b
  {
    if b != [] {
      BigEndianInverse(b[..|b| - 1]);
      assert FromBigEndian(b) / 256 == FromBigEndian(b[..|b| - 1]);
      assert b == b[..|b| - 1] + [b[|b| - 1]];
    }
  }

  lemma HeaderLimit()
    ensures Pow256(HEADER_SIZE) == U32_LIMIT
  {
    assert Pow256(4) == 256 * Pow256(3) && Pow256(3) == 256 * Pow256(2) && Pow256(2) == 256 * Pow256(1);
    assert Pow256(1) == 256 * Pow256(0);
  }

  /** The payload length as the header carries it. */
  function HeaderOf(length: nat): (header: seq<byte>)
    ensures |header| == HEADER_SIZE
  {
    BigEndian(length, HEADER_SIZE)
  }

  function LengthOf(header: seq<byte>): (length: nat)
    requires |header| == HEADER_SIZE
    ensures length < U32_LIMIT
  {
    HeaderLimit();
    FromBigEndian(header)
  }

  /** Writing and reading a header are inverse to each other. */
  lemma HeaderRoundTrip(length: nat, header: seq<byte>)
    requires length < U32_LIMIT && |header| == HEADER_SIZE
    ensures LengthOf(HeaderOf(length)) == length
    ensures HeaderOf(LengthOf(header)) == header
  {
    HeaderLimit();
    BigEndianRoundTrip(length, HEADER_SIZE);
    BigEndianInverse(header);
  }

  /**
   * The head of a queue, byte by byte: with n the number in the first four bytes, the most significant first, its
   * length is invalid exactly if n is 0 or above the limit, and else the frame is ready exactly if n more bytes are
   * there, and is those.
   */
  lemma HeadClassified(data: seq<byte>, maxFrame: nat)
    ensures |data| < 4 ==> Extract(data, maxFrame) == NeedMoreData
    ensures |data| >= 4 ==>
              var n := ((data[0] as int * 256 + data[1] as int) * 256 + data[2] as int) * 256 + data[3] as int;
              && (Extract(data, maxFrame) == InvalidLength <==> n == 0 || n > maxFrame)
              && (Extract(data, maxFrame).FrameReady? <==> 0 < n <= maxFrame && 4 + n <= |data|)
              && (Extract(data, maxFrame).FrameReady? ==> Extract(data, maxFrame) == FrameReady(data[4..4 + n]))
  {
    hide LengthOf;
    if |data| >= 4 {
      HeaderIsBigEndian(data[0], data[1], data[2], data[3]);
      assert data[..4] == [data[0], data[1], data[2], data[3]];
    }
  }

  /** Network byte order: the header's first byte is the most significant one. */
  lemma HeaderIsBigEndian(a: byte, b: byte, c: byte, d: byte)
    ensures LengthOf([a, b, c, d]) == ((a as int * 256 + b as int) * 256 + c as int) * 256 + d as int
  {
    assert [a, b, c, d][..3] == [a, b, c] && [a, b, c][..2] == [a, b] && [a, b][..1] == [a] && [a][..0] == [];
    assert FromBigEndian([a]) == a as int;
    assert FromBigEndian([a, b]) == 256 * FromBigEndian([a]) + b as int;
    assert FromBigEndian([a, b, c]) == 256 * FromBigEndian([a, b]) + c as int;
  }

  function FrameOf(payload: seq<byte>): seq<byte> {
    HeaderOf(|payload|) + payload
  }

  /** A run of payloads as they travel: framed one after the other. */
  function FrameAll(payloads: seq<seq<byte>>): seq<byte> {
    if payloads == [] then [] else FrameOf(payloads[0]) + FrameAll(payloads[1..])
  }

  /** What the head of a byte queue is, as `try_extract_frame` classifies it. */
  datatype Extracted = NeedMoreData | InvalidLength | FrameReady(payload: seq<byte>)

  function Extract(data: seq<byte>, maxFrame: nat): Extracted {
    if |data| < HEADER_SIZE then NeedMoreData
    else
      var length := LengthOf(data[..HEADER_SIZE]);
      if length == 0 || length > maxFrame then InvalidLength
      else if |data| < HEADER_SIZE + length then NeedMoreData
      else FrameReady(data[HEADER_SIZE..HEADER_SIZE + length])
  }

  /** A payload that a decoder with this limit accepts. */
  predicate Acceptable(payload: seq<byte>, maxFrame: nat) {
    1 <= |payload| <= maxFrame && |payload| < U32_LIMIT
  }

  predicate AllAcceptable(payloads: seq<seq<byte>>, maxFrame: nat) {
    forall i :: 0 <= i < |payloads| ==> Acceptable(payloads[i], maxFrame)
  }

  /** The reference decoder of a whole stream: every complete frame, and what is left. */
  datatype Decoded = Decoded(frames: seq<seq<byte>>, rest: seq<byte>)

  function DecodeAll(stream: seq<byte>, maxFrame: nat): Decoded
    decreases |stream|
  {
    match Extract(stream, maxFrame)
    case FrameReady(payload) =>
      var tail := DecodeAll(stream[HEADER_SIZE + |payload|..], maxFrame);
      Decoded([payload] + tail.frames, tail.rest)
    case _ => Decoded([], stream)
  }

  /** Extraction undoes framing, whatever follows the frame. */
  lemma ExtractFramed(payload: seq<byte>, tail: seq<byte>, maxFrame: nat)
    requires Acceptable(payload, maxFrame)
    ensures Extract(FrameOf(payload) + tail, maxFrame) == FrameReady(payload)
    ensures (FrameOf(payload) + tail)[HEADER_SIZE + |payload|..] == tail
  {
    HeaderRoundTrip(|payload|, HeaderOf(|payload|));
    var data := FrameOf(payload) + tail;
    assert data[..HEADER_SIZE] == HeaderOf(|payload|);
    assert data[HEADER_SIZE..HEADER_SIZE + |payload|] == payload;
  }

  /** A ready frame is exactly the head of the queue. */
  lemma ExtractSound(data: seq<byte>, maxFrame: nat)
    requires Extract(data, maxFrame).FrameReady?
    ensures var p := Extract(data, maxFrame).payload;
            Acceptable(p, maxFrame) && HEADER_SIZE + |p| <= |data| && data == FrameOf(p) + data[HEADER_SIZE + |p|..]
  {
    HeaderRoundTrip(0, data[..HEADER_SIZE]);
  }

  lemma ReadyIsAcceptable(data: seq<byte>, maxFrame: nat)
    requires Extract(data, maxFrame).FrameReady?
    ensures Acceptable(Extract(data, maxFrame).payload, maxFrame)
  {}

  /** Once the head is settled, later bytes do not change the verdict. */
  lemma ExtractStable(data: seq<byte>, more: seq<byte>, maxFrame: nat)
    requires !Extract(data, maxFrame).NeedMoreData?
    ensures Extract(data + more, maxFrame) == Extract(data, maxFrame)
  {
    assert (data + more)[..HEADER_SIZE] == data[..HEADER_SIZE];
    if Extract(data, maxFrame).FrameReady? {
      var n := HEADER_SIZE + |Extract(data, maxFrame).payload|;
      assert (data + more)[HEADER_SIZE..n] == data[HEADER_SIZE..n];
    }
  }

  lemma {:induction false} FrameAllConcat(a: seq<seq<byte>>, b: seq<seq<byte>>)
    ensures FrameAll(a + b) == FrameAll(a) + FrameAll(b)
  {
    if a == [] {
      assert a + b == b;
    } else {
      assert (a + b)[0] == a[0] && (a + b)[1..] == a[1..] + b;
      FrameAllConcat(a[1..], b);
    }
  }

  lemma FrameAllOne(p: seq<byte>)
    ensures FrameAll([p]) == FrameOf(p)
  {
    assert FrameAll([p]) == FrameOf(p) + FrameAll([]);
  }

  lemma FrameAllAppend(a: seq<seq<byte>>, p: seq<byte>)
    ensures FrameAll(a + [p]) == FrameAll(a) + FrameOf(p)
  {
    FrameAllConcat(a, [p]);
    FrameAllOne(p);
  }

  lemma DecodeReady(payload: seq<byte>, tail: seq<byte>, maxFrame: nat)
    requires Acceptable(payload, maxFrame)
    ensures DecodeAll(FrameOf(payload) + tail, maxFrame)
         == Decoded([payload] + DecodeAll(tail, maxFrame).frames, DecodeAll(tail, maxFrame).rest)
  {
    ExtractFramed(payload, tail, maxFrame);
  }

  /** Decoding a framed run followed by anything: the run, then whatever the rest decodes to. */
  lemma {:induction false} DecodeFramed(payloads: seq<seq<byte>>, tail: seq<byte>, maxFrame: nat)
    requires AllAcceptable(payloads, maxFrame)
    ensures DecodeAll(FrameAll(payloads) + tail, maxFrame)
         == Decoded(payloads + DecodeAll(tail, maxFrame).frames, DecodeAll(tail, maxFrame).rest)
  {
    if payloads == [] {
      assert FrameAll(payloads) + tail == tail;
      assert payloads + DecodeAll(tail, maxFrame).frames == DecodeAll(tail, maxFrame).frames;
    } else {
      var head, others := payloads[0], payloads[1..];
      assert AllAcceptable(others, maxFrame) && Acceptable(head, maxFrame);
      DecodeFramed(others, tail, maxFrame);
      DecodeReady(head, FrameAll(others) + tail, maxFrame);
      ConcatAssociative(FrameOf(head), FrameAll(others), tail);
      ConcatAssociative([head], others, DecodeAll(tail, maxFrame).frames);
      assert [head] + others == payloads;
    }
  }

  /** Decoding loses nothing: the frames re-encoded, then the rest, are the stream; the rest holds no ready frame. */
  lemma {:induction false} DecodeSound(stream: seq<byte>, maxFrame: nat)
    ensures var d := DecodeAll(stream, maxFrame);
            AllAcceptable(d.frames, maxFrame) && stream == FrameAll(d.frames) + d.rest
            && !Extract(d.rest, maxFrame).FrameReady?
    decreases |stream|
  {
    if Extract(stream, maxFrame).FrameReady? {
      var p := Extract(stream, maxFrame).payload;
      ExtractSound(stream, maxFrame);
      var tail := stream[HEADER_SIZE + |p|..];
      var d := DecodeAll(tail, maxFrame);
      DecodeSound(tail, maxFrame);
      assert DecodeAll(stream, maxFrame) == Decoded([p] + d.frames, d.rest);
      FrameAllConcat([p], d.frames);
      FrameAllOne(p);
      ConcatAssociative(FrameOf(p), FrameAll(d.frames), d.rest);
      assert AllAcceptable([p] + d.frames, maxFrame);
    } else {
      assert FrameAll([]) + stream == stream;
    }
  }

  /** However a stream is cut, decoding a prefix of it gives a prefix of its frames. */
  lemma DecodePrefix(stream: seq<byte>, more: seq<byte>, maxFrame: nat)
    ensures DecodeAll(stream, maxFrame).frames <= DecodeAll(stream + more, maxFrame).frames
  {
    hide Extract, FrameAll, DecodeAll;
    DecodeSound(stream, maxFrame);
    var d := DecodeAll(stream, maxFrame);
    ConcatAssociative(FrameAll(d.frames), d.rest, more);
    DecodeFramed(d.frames, d.rest + more, maxFrame);
  }

  lemma DecodeExactly(payloads: seq<seq<byte>>, maxFrame: nat)
    requires AllAcceptable(payloads, maxFrame)
    ensures DecodeAll(FrameAll(payloads), maxFrame) == Decoded(payloads, [])
  {
    DecodeFramed(payloads, [], maxFrame);
    assert DecodeAll([], maxFrame) == Decoded([], []);
    assert FrameAll(payloads) + [] == FrameAll(payloads);
  }

  /** The encoding of runs is uniquely decodable: a run whose bytes start another run's bytes is a prefix of it. */
  lemma FramesPrefix(a: seq<seq<byte>>, tail: seq<byte>, b: seq<seq<byte>>, maxFrame: nat)
    requires AllAcceptable(a, maxFrame) && AllAcceptable(b, maxFrame)
    requires FrameAll(a) + tail <= FrameAll(b)
    ensures a <= b
  {
    var more := FrameAll(b)[|FrameAll(a) + tail|..];
    assert FrameAll(b) == FrameAll(a) + (tail + more);
    DecodeFramed(a, tail + more, maxFrame);
    DecodeExactly(b, maxFrame);
  }

  /** What follows a framed run in a longer one starts the payloads that follow. */
  lemma FramesRest(a: seq<seq<byte>>, tail: seq<byte>, b: seq<seq<byte>>, maxFrame: nat)
    requires AllAcceptable(a, maxFrame) && AllAcceptable(b, maxFrame)
    requires FrameAll(a) + tail <= FrameAll(b)
    ensures a <= b && tail <= FrameAll(b[|a|..])
  {
    hide FrameAll, AllAcceptable;
    FramesPrefix(a, tail, b, maxFrame);
    var others := b[|a|..];
    assert b == a + others;
    FrameAllConcat(a, others);
    PrefixCancel(FrameAll(a), tail, FrameAll(others));
  }

  /** A prefix of framed payloads decodes to a prefix of the payloads and never meets an invalid length. */
  lemma PrefixNeverMisframed(got: seq<byte>, payloads: seq<seq<byte>>, maxFrame: nat)
    requires AllAcceptable(payloads, maxFrame) && got <= FrameAll(payloads)
    ensures DecodeAll(got, maxFrame).frames <= payloads
    ensures Extract(DecodeAll(got, maxFrame).rest, maxFrame) == NeedMoreData
  {
    hide Extract, FrameAll, DecodeAll;
    DecodeSound(got, maxFrame);
    var d := DecodeAll(got, maxFrame);
    FramesRest(d.frames, d.rest, payloads, maxFrame);
    var others := payloads[|d.frames|..];
    var more := FrameAll(others)[|d.rest|..];
    HeadNeverInvalid(d.rest, more, others, maxFrame);
  }

  lemma HeadNeverInvalid(rest: seq<byte>, more: seq<byte>, others: seq<seq<byte>>, maxFrame: nat)
    requires AllAcceptable(others, maxFrame) && rest + more == FrameAll(others)
    ensures Extract(rest, maxFrame) != InvalidLength
  {
    hide FrameOf;
    if Extract(rest, maxFrame) == InvalidLength {
      ExtractStable(rest, more, maxFrame);
      if others != [] {
        ExtractFramed(others[0], FrameAll(others[1..]), maxFrame);
      }
    }
  }

  lemma FrameAllPrefix(a: seq<seq<byte>>, b: seq<seq<byte>>)
    requires a <= b
    ensures FrameAll(a) <= FrameAll(b)
  {
    FrameAllConcat(a, b[|a|..]);
    assert a + b[|a|..] == b;
  }

  /** Of framed payloads, exactly those decode from a prefix whose last byte has arrived. */
  lemma ArrivedPayloads(got: seq<byte>, payloads: seq<seq<byte>>, maxFrame: nat, k: nat)
    requires AllAcceptable(payloads, maxFrame) && got <= FrameAll(payloads) && k < |payloads|
    ensures k < |DecodeAll(got, maxFrame).frames| <==> |FrameAll(payloads[..k + 1])| <= |got|
  {
    hide Extract, FrameAll, DecodeAll;
    PrefixNeverMisframed(got, payloads, maxFrame);
    DecodeSound(got, maxFrame);
    var d := DecodeAll(got, maxFrame);
    FrameAllPrefix(payloads[..k + 1], payloads);
    if k < |d.frames| {
      FrameAllPrefix(payloads[..k + 1], d.frames);
    } else if |FrameAll(payloads[..k + 1])| <= |got| {
      var tail := got[|FrameAll(payloads[..k + 1])|..];
      assert got == FrameAll(payloads[..k + 1]) + tail;
      DecodeFramed(payloads[..k + 1], tail, maxFrame);
    }
  }
}
