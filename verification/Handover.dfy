/** The handover of a stream from the handshake's read loop to the driver, which starts with an empty
    buffer: what the loop read behind the response is lost. */
module Handover {
  import opened LittleEndian
  import opened Wrappers
  import opened Sequences
  import opened Protocol
  import opened Codec
  import opened Handshake

  predicate Chunked(chunks: seq<seq<Byte>>) {
    forall i | 0 <= i < |chunks| :: 1 <= |chunks[i]| <= READ_CHUNK
  }

  /** The reads that give the loop its answer: none of them could be left out. */
  predicate Answers(chunks: seq<seq<Byte>>, used: nat) {
    && used <= |chunks| && Decode(Flatten(chunks[..used]), HANDSHAKE_ADMISSION).Admitted?
    && forall u | 0 <= u < used :: Unanswered(chunks, u)
  }

  /** The first `end` bytes of the stream end where some read ends. */
  predicate EndsAtCut(chunks: seq<seq<Byte>>, end: nat) {
    exists v :: 0 <= v <= |chunks| && |Flatten(chunks[..v])| == end
  }

  lemma LaterCutsLonger(chunks: seq<seq<Byte>>, u: nat, v: nat)
    requires Chunked(chunks) && u < v <= |chunks|
    ensures |Flatten(chunks[..u])| < |Flatten(chunks[..v])| && Flatten(chunks[..u]) <= Flatten(chunks[..v])
  {
    FlattenCut(chunks[..v], u);
    assert chunks[..v][..u] == chunks[..u];
    assert chunks[..v][u..][0] == chunks[u];
  }

  /** A buffer that holds the response whole has its answer. */
  lemma AnsweredAtEnd(held: seq<Byte>, first: seq<Byte>)
    requires Decode(held, HANDSHAKE_ADMISSION).Admitted? && first <= held && AnswerEnd(held) <= |first|
    ensures Decode(first, HANDSHAKE_ADMISSION).Admitted?
  {
    AnswerEnds(held);
    var answer := held[..AnswerEnd(held)];
    assert first == answer + first[|answer|..];
    PrefixStable(answer, first[|answer|..], HANDSHAKE_ADMISSION);
  }

  /** A read that ends with the response is the last one the loop makes. */
  lemma CutAtEndIsLast(chunks: seq<seq<Byte>>, used: nat, v: nat)
    requires Chunked(chunks) && Answers(chunks, used) && v <= |chunks|
    requires |Flatten(chunks[..v])| == AnswerEnd(Flatten(chunks[..used]))
    ensures v == used
  {
    var held := Flatten(chunks[..used]);
    AnswerEnds(held);
    if v < used {
      assert Unanswered(chunks, v);
      LaterCutsLonger(chunks, v, used);
      AnsweredAtEnd(held, Flatten(chunks[..v]));
    }
    if used < v { LaterCutsLonger(chunks, used, v); }
  }

  /** The driver reads on from the chunks the loop has not used. What it reads is what the peer sent
      behind the response if and only if the response ends where a read ends. */
  lemma StreamContinuesExactly(chunks: seq<seq<Byte>>, used: nat)
    requires Chunked(chunks) && Answers(chunks, used)
    ensures var held := Flatten(chunks[..used]);
            && AnswerEnd(held) <= |held| <= |Flatten(chunks)|
            && Flatten(chunks)[AnswerEnd(held)..] == held[AnswerEnd(held)..] + Flatten(chunks[used..])
            && (Flatten(chunks)[AnswerEnd(held)..] == Flatten(chunks[used..]) <==> EndsAtCut(chunks, AnswerEnd(held)))
  {
    var held, rest := Flatten(chunks[..used]), Flatten(chunks[used..]);
    var end := AnswerEnd(held);
    AnswerEnds(held);
    FlattenCut(chunks, used);
    BehindEnd(held, rest, end);
    if EndsAtCut(chunks, end) {
      var v :| 0 <= v <= |chunks| && |Flatten(chunks[..v])| == end;
      CutAtEndIsLast(chunks, used, v);
    }
  }

  lemma BehindEnd(held: seq<Byte>, rest: seq<Byte>, end: nat)
    requires end <= |held|
    ensures (held + rest)[end..] == held[end..] + rest
    ensures (held + rest)[end..] == rest <==> end == |held|
  {
  }

  // ---------------------------------------------------------------- bytes that are lost

  /** The frame that carries a response. */
  function AnswerOf(r: ResponsePayload): Outgoing {
    Outgoing(Response, 0, HANDSHAKE_ID, [], Opaque(EncodeResponse(r)))
  }

  /** It is 30 bytes long, and its end is found whatever follows. */
  lemma AnswerFrame(r: ResponsePayload, more: seq<Byte>)
    requires Acceptable(r, OFFER)
    ensures EncodeWithMax(AnswerOf(r), MAX_FRAME_SIZE, MAX_METADATA_SIZE).Ok?
    ensures var bytes := EncodeWithMax(AnswerOf(r), MAX_FRAME_SIZE, MAX_METADATA_SIZE).value;
            |bytes| == 30 && AnswerEnd(bytes + more) == 30
  {
    NothingOffered(r.entries, OFFER);
    var o, payload := AnswerOf(r), EncodeResponse(r);
    AnswerDecodes(payload, more);
    EncodedParts(o, MAX_FRAME_SIZE, MAX_METADATA_SIZE);
    var bytes := EncodeWithMax(o, MAX_FRAME_SIZE, MAX_METADATA_SIZE).value;
    EncodedSlices(RawHeader(0, 2, 0, 0, 0, |payload|, HANDSHAKE_ID), [], payload, bytes, more);
  }

  lemma OneRead(bytes: seq<Byte>)
    ensures Flatten([bytes]) == bytes && Flatten([bytes][..1]) == bytes && Flatten([bytes][..0]) == []
    ensures Flatten([bytes][1..]) == []
  {
    assert [bytes][..1] == [bytes] && [bytes][1..] == [];
    assert bytes + [] == bytes;
  }

  /** A response and bytes behind it arrive in one read: the connection is established, and the driver
      sees none of those bytes. */
  lemma TailDropped(r: ResponsePayload, config: Config, more: seq<Byte>) returns (chunks: seq<seq<Byte>>)
    requires Validated(config) && Acceptable(r, OFFER) && 0 < |more| <= READ_CHUNK - 30
    requires r.frameSize <= config.localFrameSize && r.metadataSize <= config.localMetadataSize
    ensures Chunked(chunks) && |chunks| == 1 && Answers(chunks, 1)
    ensures Verdict(Flatten(chunks), config) == Some(Ok(Terms(r, config))) && Establish(Terms(r, config)).Ok?
    ensures AnswerEnd(Flatten(chunks)) <= |Flatten(chunks)|
    ensures Flatten(chunks)[AnswerEnd(Flatten(chunks))..] == more && Flatten(chunks[1..]) == []
  {
    AnswerFrame(r, more);
    HandshakeReaches(r, config, more);
    var bytes := EncodeWithMax(AnswerOf(r), MAX_FRAME_SIZE, MAX_METADATA_SIZE).value;
    chunks := [bytes + more];
    OneRead(bytes + more);
    assert (bytes + more)[30..] == more;
    assert Unanswered(chunks, 0);
    assert Decode(bytes + more, HANDSHAKE_ADMISSION).Admitted?;
  }

  // ---------------------------------------------------------------- a buffer past its cap

  /** Reads of the largest size, and one for what is left. */
  function Cut(bytes: seq<Byte>): seq<seq<Byte>>
    requires bytes != []
  {
    if |bytes| <= READ_CHUNK then [bytes] else [bytes[..READ_CHUNK]] + Cut(bytes[READ_CHUNK..])
  }

  lemma {:induction false} CutFlattens(bytes: seq<Byte>)
    requires bytes != []
    ensures Chunked(Cut(bytes)) && Flatten(Cut(bytes)) == bytes
  {
    if |bytes| <= READ_CHUNK {
      OneRead(bytes);
    } else {
      var rest := Cut(bytes[READ_CHUNK..]);
      CutFlattens(bytes[READ_CHUNK..]);
      assert ([bytes[..READ_CHUNK]] + rest)[1..] == rest;
      assert bytes == bytes[..READ_CHUNK] + bytes[READ_CHUNK..];
    }
  }

  /** What the whole leaves open, its first chunks leave open. */
  lemma NeedsDown(chunks: seq<seq<Byte>>, u: nat)
    requires Decode(Flatten(chunks), HANDSHAKE_ADMISSION).Need? && u <= |chunks|
    ensures Unanswered(chunks, u)
  {
    FlattenCut(chunks, u);
    PrefixStable(Flatten(chunks[..u]), Flatten(chunks[u..]), HANDSHAKE_ADMISSION);
  }

  /** The header of a response frame as large as the cap allows. */
  function LargestHeader(): RawHeader {
    RawHeader(0, 2, 0, 0, 0, 65_516, HANDSHAKE_ID)
  }

  /** All of such a frame but its last byte is not yet an answer. */
  lemma OneByteShort(body: seq<Byte>)
    requires |body| == 65_515
    ensures Decode(HeaderBytes(LargestHeader()) + body, HANDSHAKE_ADMISSION) == Need(65_536)
  {
    HeaderRoundTrip(LargestHeader(), body);
  }

  /** The buffer bound is met: a peer that sends all but the last byte of the largest frame and then a
      full read takes the loop's buffer 4095 bytes past its cap, and every read was called for. */
  lemma BufferPastCap(config: Config, body: seq<Byte>, last: seq<Byte>) returns (chunks: seq<seq<Byte>>)
    requires Validated(config) && |body| == 65_515 && |last| == READ_CHUNK
    ensures Chunked(chunks) && |Flatten(chunks)| == BufferCap(config) + (READ_CHUNK - 1)
    ensures forall u | 0 <= u < |chunks| :: Unanswered(chunks, u)
  {
    var held := HeaderBytes(LargestHeader()) + body;
    OneByteShort(body);
    chunks := OneReadMore(held, last);
  }

  lemma OneReadMore(held: seq<Byte>, last: seq<Byte>) returns (chunks: seq<seq<Byte>>)
    requires held != [] && Decode(held, HANDSHAKE_ADMISSION).Need? && 1 <= |last| <= READ_CHUNK
    ensures Chunked(chunks) && Flatten(chunks) == held + last
    ensures forall u | 0 <= u < |chunks| :: Unanswered(chunks, u)
  {
    CutFlattens(held);
    chunks := Cut(held) + [last];
    FlattenAppend(Cut(held), [last]);
    OneRead(last);
    AllOpen(Cut(held), last);
  }

  lemma AllOpen(chunks: seq<seq<Byte>>, last: seq<Byte>)
    requires Decode(Flatten(chunks), HANDSHAKE_ADMISSION).Need?
    ensures forall u | 0 <= u < |chunks + [last]| :: Unanswered(chunks + [last], u)
  {
    forall u | 0 <= u < |chunks + [last]| ensures Unanswered(chunks + [last], u) {
      NeedsDown(chunks, u);
      assert (chunks + [last])[..u] == chunks[..u];
    }
  }
}
