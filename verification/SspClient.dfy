/** The simulator's half of the protocol: one framed request out, one framed response in, over a blocking socket. */
module SspClients {
  import opened Bytes
  import opened Frames

  /** The client puts no limit of its own on a response; any non-zero 32-bit length will do. */
  const RESPONSE_LIMIT: nat := U32_LIMIT - 1

  function FrameMessage(payload: seq<byte>): seq<byte> {
    FrameOf(payload)
  }

  /** What reading one response off a stream gives. */
  datatype Received = Response(payload: seq<byte>) | ZeroLength | ConnectionClosed

  function NextResponse(stream: seq<byte>): Received {
    match Extract(stream, RESPONSE_LIMIT)
    case FrameReady(payload) => Response(payload)
    case InvalidLength => ZeroLength
    case NeedMoreData => ConnectionClosed
  }

  /** A blocking socket: what the peer will have sent by the time it closes, and how the kernel cuts it into reads. */
  class Socket {
    var incoming: seq<byte>
    var cuts: seq<nat>
    var outgoing: seq<byte>

    constructor (incoming: seq<byte>, cuts: seq<nat>)
      ensures this.incoming == incoming && outgoing == []
    {
      this.incoming, this.cuts, outgoing := incoming, cuts, [];
    }

    /** Gives at least one byte and at most as many as asked for; nothing only once the peer has closed. */
    method Recv(limit: nat) returns (chunk: seq<byte>)
      requires limit > 0
      modifies this`incoming, this`cuts
      ensures chunk + incoming == old(incoming) && |chunk| <= limit
      ensures chunk == [] <==> old(incoming) == []
    {
      var cut := if cuts == [] then limit else Max(1, cuts[0]);
      cuts := if cuts == [] then [] else cuts[1..];
      var n := Min(Min(cut, limit), |incoming|);
      chunk, incoming := incoming[..n], incoming[n..];
    }

    method SendAll(bytes: seq<byte>)
      modifies this`outgoing
      ensures outgoing == old(outgoing) + bytes
    {
      outgoing := outgoing + bytes;
    }
  }

  /** Exactly the next bytes of the stream, however they are cut; none if it closes before. */
  method RecvExact(sock: Socket, byteCount: nat) returns (bytes: Option<seq<byte>>)
    modifies sock`incoming, sock`cuts
    ensures bytes.Some? <==> byteCount <= |old(sock.incoming)|
    ensures bytes.Some? ==>
              bytes.value == old(sock.incoming)[..byteCount] && sock.incoming == old(sock.incoming)[byteCount..]
  {
    var chunks: seq<byte> := [];
    var remaining: nat := byteCount;
    while remaining > 0
      invariant chunks + sock.incoming == old(sock.incoming)
      invariant |chunks| + remaining == byteCount
    {
      var chunk := sock.Recv(remaining);
      if |chunk| == 0 {
        return None;
      }
      ConcatAssociative(chunks, chunk, sock.incoming);
      chunks := chunks + chunk;
      remaining := remaining - |chunk|;
    }
    assert old(sock.incoming)[..byteCount] == chunks;
    return Some(chunks);
  }

  /** One response, as the pure decoder reads it off the stream: cutting the stream differently changes nothing. */
  method RecvFramedResponse(sock: Socket) returns (r: Received)
    modifies sock`incoming, sock`cuts
    ensures r == NextResponse(old(sock.incoming))
    ensures r.Response? ==> old(sock.incoming) == FrameOf(r.payload) + sock.incoming
  {
    ghost var stream := sock.incoming;
    var header := RecvExact(sock, HEADER_SIZE);
    if header.None? {
      return ConnectionClosed;
    }
    var payloadLength := LengthOf(header.value);
    if payloadLength == 0 {
      return ZeroLength;
    }
    var payload := RecvExact(sock, payloadLength);
    if payload.None? {
      return ConnectionClosed;
    }
    assert payload.value == stream[HEADER_SIZE..HEADER_SIZE + payloadLength];
    ExtractSound(stream, RESPONSE_LIMIT);
    return Response(payload.value);
  }

  lemma FramesOfNothing()
    ensures FrameAll([]) == []
  {}

  /** A response read off a stream is its first frame; without one the stream has no frames. */
  lemma FramesReceivedNext(stream: seq<byte>, rest: seq<byte>, r: Received)
    requires r == NextResponse(stream) && (r.Response? ==> stream == FrameOf(r.payload) + rest)
    ensures DecodeAll(stream, RESPONSE_LIMIT).frames
         == if r.Response? then [r.payload] + DecodeAll(rest, RESPONSE_LIMIT).frames else []
  {
    hide FrameOf;
    if r.Response? {
      ReadyIsAcceptable(stream, RESPONSE_LIMIT);
      DecodeReady(r.payload, rest, RESPONSE_LIMIT);
    }
  }

  /**
   * The send/receive loop: a request is sent only after the previous one was answered, and the responses are the
   * frames of the incoming stream in order, as many as there are requests and frames.
   */
  method Exchange(sock: Socket, requests: seq<seq<byte>>) returns (responses: seq<seq<byte>>, answered: bool)
    modifies sock
    ensures var frames := DecodeAll(old(sock.incoming), RESPONSE_LIMIT).frames;
            && responses <= frames
            && |responses| == Min(|requests|, |frames|)
            && (answered <==> |requests| <= |frames|)
    ensures sock.outgoing == old(sock.outgoing) + FrameAll(requests[..Min(|requests|, |responses| + 1)])
  {
    hide FrameOf, FrameAll, DecodeAll, NextResponse;
    FramesOfNothing();
    ghost var frames := DecodeAll(sock.incoming, RESPONSE_LIMIT).frames;
    responses := [];
    for i := 0 to |requests|
      invariant |responses| == i && frames == responses + DecodeAll(sock.incoming, RESPONSE_LIMIT).frames
      invariant sock.outgoing == old(sock.outgoing) + FrameAll(requests[..i])
    {
      ghost var stream := sock.incoming;
      sock.SendAll(FrameMessage(requests[i]));
      assert requests[..i + 1] == requests[..i] + [requests[i]];
      FrameAllAppend(requests[..i], requests[i]);
      ConcatAssociative(old(sock.outgoing), FrameAll(requests[..i]), FrameOf(requests[i]));
      var r := RecvFramedResponse(sock);
      FramesReceivedNext(stream, sock.incoming, r);
      if !r.Response? {
        return responses, false;
      }
      ConcatAssociative(responses, [r.payload], DecodeAll(sock.incoming, RESPONSE_LIMIT).frames);
      responses := responses + [r.payload];
    }
    assert requests[..|requests|] == requests;
    return responses, true;
  }
}
