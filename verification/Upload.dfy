// Answering a peer's request for a chunk: `on_download_request` of live/mod.rs, the writer
// of peer_connection.rs, and `serialize_piece_preamble` of peer_binary_protocol/src/lib.rs.
module Upload {
  import opened Wrappers
  import opened FlatFiles
  import opened Lengths
  import opened PeerProtocol
  import CT = ChunkTracker
  import FO = FileOps

  const LEN_PREFIX_PIECE: u32 := 9
  const PIECE_MESSAGE_PREAMBLE_LEN: nat := 13

  datatype UploadError = InvalidRequest | NotReady | ReadFailed(error: FO.FileError)

  // The request is for exactly one chunk of the torrent.
  ghost predicate AsksForChunk(l: Lengths, request: Message)
    requires Sane(l) && request.Request?
  {
    request.index <= l.lastPieceId && exists k: u32 :: IsChunk(l, request.index, k, request.begin, request.length)
  }

  // Where the requested bytes start in the torrent.
  function RequestStart(l: Lengths, request: Message): nat
    requires request.Request?
  {
    PieceOffset(l, request.index) + request.begin
  }

  // Only a chunk of a piece that we have is queued for the writer.
  method OnDownloadRequest(tracker: CT.ChunkTracker, request: Message) returns (r: Result<ChunkInfo, UploadError>)
    requires tracker.Valid() && request.Request?
    ensures r.Ok? <==> AsksForChunk(tracker.lengths, request) && tracker.Abs().have[request.index]
    ensures r == Err(InvalidRequest) <==> !AsksForChunk(tracker.lengths, request)
    ensures r.Ok? ==>
              && r.value.pieceIndex == request.index
              && r.value.offset == request.begin && r.value.size == request.length
              && RequestInside(tracker.lengths, request)
  {
    var p := ValidatePieceIndex(tracker.lengths, request.index);
    if p.None? { return Err(InvalidRequest); }
    ReceivedDataIsExactlyAChunk(tracker.lengths, request.index, request.begin, request.length);
    var chunk := ChunkInfoFromReceivedData(tracker.lengths, p.value, request.begin, request.length);
    if chunk.None? { return Err(InvalidRequest); }
    ChunkInside(tracker.lengths, request);
    if chunk.value.pieceIndex >= tracker.have.Length || !tracker.have[chunk.value.pieceIndex] { return Err(NotReady); }
    r := Ok(chunk.value);
  }

  // A requested chunk is not empty and lies inside the torrent.
  ghost predicate RequestInside(l: Lengths, request: Message)
    requires request.Request?
  {
    0 < request.length && RequestStart(l, request) + request.length <= l.totalLength
  }

  lemma ChunkInside(l: Lengths, request: Message)
    requires Sane(l) && request.Request? && AsksForChunk(l, request)
    ensures RequestInside(l, request)
  {
    var k: u32 :| IsChunk(l, request.index, k, request.begin, request.length);
    ChunksTilePiece(l, request.index, k);
    FO.PieceEnds(l, request.index);
  }

  // The first 13 bytes of a piece message; the rest of the buffer stays.
  method SerializePiecePreamble(chunk: ChunkInfo, buffer: array<byte>) returns (n: nat)
    requires buffer.Length >= PIECE_MESSAGE_PREAMBLE_LEN
    modifies buffer
    ensures n == PIECE_MESSAGE_PREAMBLE_LEN && buffer[n..] == old(buffer[n..])
    ensures forall block: Bytes :: |block| == chunk.size ==>
              buffer[..n] + block == Encode(Piece(chunk.pieceIndex, chunk.offset, block))
  {
    hide WriteU32, Put, Encode;
    ghost var before := buffer[..];
    PutU32(buffer, 0, AsU32(LEN_PREFIX_PIECE + chunk.size));
    ghost var first := buffer[..];
    buffer[4] := MSGID_PIECE;
    assert buffer[..] == Put(first, 4, [MSGID_PIECE]) by { PutOne(first, 4, MSGID_PIECE); }
    PutU32(buffer, 5, chunk.pieceIndex);
    PutU32(buffer, 9, chunk.offset);
    n := PIECE_MESSAGE_PREAMBLE_LEN;
    PreamblePut(before, WriteU32(AsU32(9 + chunk.size)), MSGID_PIECE, WriteU32(chunk.pieceIndex),
                WriteU32(chunk.offset));
    assert buffer[..n] == buffer[..][..n] && buffer[n..] == buffer[..][n..];
    forall block: Bytes | |block| == chunk.size
      ensures buffer[..n] + block == Encode(Piece(chunk.pieceIndex, chunk.offset, block))
    {
      PreambleEncodes(chunk.pieceIndex, chunk.offset, block);
    }
  }

  lemma PutOne(buffer: Bytes, at: nat, b: byte)
    requires at < |buffer|
    ensures Put(buffer, at, [b]) == buffer[at := b]
  {
  }

  // A write appends to what comes before it, and leaves what comes after.
  lemma PutAppends(buffer: Bytes, at: nat, data: Bytes, m: nat)
    requires at + |data| <= m <= |buffer|
    ensures Put(buffer, at, data)[..at + |data|] == buffer[..at] + data
    ensures Put(buffer, at, data)[m..] == buffer[m..]
  {
  }

  lemma PreamblePut(buffer: Bytes, a: Bytes, b: byte, c: Bytes, d: Bytes)
    requires |buffer| >= PIECE_MESSAGE_PREAMBLE_LEN && |a| == |c| == |d| == 4
    ensures var r := Put(Put(Put(Put(buffer, 0, a), 4, [b]), 5, c), 9, d);
            && r[..PIECE_MESSAGE_PREAMBLE_LEN] == a + [b] + c + d
            && r[PIECE_MESSAGE_PREAMBLE_LEN..] == buffer[PIECE_MESSAGE_PREAMBLE_LEN..]
  {
    hide Put;
    PutAppends(buffer, 0, a, 13);
    var r1 := Put(buffer, 0, a);
    PutAppends(r1, 4, [b], 13);
    var r2 := Put(r1, 4, [b]);
    PutAppends(r2, 5, c, 13);
    var r3 := Put(r2, 5, c);
    PutAppends(r3, 9, d, 13);
  }

  lemma PreambleEncodes(index: u32, begin: u32, block: Bytes)
    requires |block| < U32_LIMIT
    ensures WriteU32(AsU32(9 + |block|)) + [MSGID_PIECE] + WriteU32(index) + WriteU32(begin) + block ==
            Encode(Piece(index, begin, block))
  {
    hide WriteU32;
    var head := WriteU32(AsU32(9 + |block|)) + [MSGID_PIECE];
    assert head + (WriteU32(index) + WriteU32(begin) + block) == head + WriteU32(index) + WriteU32(begin) + block;
  }

  // `BE::write_u32`.
  method PutU32(buffer: array<byte>, at: nat, n: u32)
    requires at + 4 <= buffer.Length
    modifies buffer
    ensures buffer[..] == Put(old(buffer[..]), at, WriteU32(n))
  {
    var b := WriteU32(n);
    buffer[at], buffer[at + 1], buffer[at + 2], buffer[at + 3] := b[0], b[1], b[2], b[3];
  }

  // `Vec::resize`.
  method ResizeVec(buffer: Bytes, n: nat) returns (r: array<byte>)
    ensures fresh(r) && r[..] == Resize(buffer, n)
  {
    var bytes := Resize(buffer, n);
    r := new byte[n](i requires 0 <= i < n => bytes[i]);
  }

  // The writer: preamble and block go into one buffer, which is what is sent.
  method WriteChunkMessage(ops: FO.FileOps, chunk: ChunkInfo, buffer: Bytes) returns (r: Result<Bytes, FO.FileError>)
    requires ops.Valid() && ChunkAbsoluteOffset(ops.lengths, chunk) + chunk.size <= ops.lengths.totalLength
    ensures var start := ChunkAbsoluteOffset(ops.lengths, chunk);
            var end := start + chunk.size;
            && (r.Ok? <==> FO.AllHold(ops.files, ops.fileLengths, start, end))
            && (r.Ok? ==> r.value == Encode(Piece(chunk.pieceIndex, chunk.offset, ops.Content()[start..end])))
  {
    hide FO.AllHold, FO.ContentOf, FO.Paired, Encode, Resize;
    var message := StartMessage(chunk, buffer);
    ghost var preamble := message[..PIECE_MESSAGE_PREAMBLE_LEN];
    var read := ops.ReadChunk(chunk, message, PIECE_MESSAGE_PREAMBLE_LEN);
    if read.Err? { return Err(read.error); }
    assert message[..] == preamble + message[PIECE_MESSAGE_PREAMBLE_LEN..];
    r := Ok(message[..]);
  }

  // A buffer of the message's size that begins with its preamble.
  method StartMessage(chunk: ChunkInfo, buffer: Bytes) returns (message: array<byte>)
    ensures fresh(message) && message.Length == PIECE_MESSAGE_PREAMBLE_LEN + chunk.size
    ensures forall block: Bytes :: |block| == chunk.size ==>
              message[..PIECE_MESSAGE_PREAMBLE_LEN] + block == Encode(Piece(chunk.pieceIndex, chunk.offset, block))
  {
    hide Encode, Resize;
    message := ResizeVec(buffer, PIECE_MESSAGE_DEFAULT_LEN);
    var preambleLen := SerializePiecePreamble(chunk, message);
    ghost var written := message[..];
    message := ResizeVec(message[..], preambleLen + chunk.size);
    ResizedHead(written, preambleLen + chunk.size, preambleLen);
    assert message[..preambleLen] == message[..][..preambleLen] == written[..preambleLen];
  }

  lemma ResizedHead(buffer: Bytes, n: nat, k: nat)
    requires k <= n && k <= |buffer|
    ensures Resize(buffer, n)[..k] == buffer[..k]
  {
  }

  // Every buffer that begins with these bytes reads as this message, of this size.
  ghost predicate ReadsAs(bytes: Bytes, m: Message) {
    forall rest: Bytes, decodable :: Deserialize(bytes + rest, decodable) == Decoded(m, |bytes|)
  }

  // A request is answered exactly when it asks for a chunk of a piece that we have, whose
  // bytes the files hold. The answer's bytes read, whatever follows them, as the requested
  // piece of the torrent; unless the chunk is so long that the length prefix wraps.
  method AnswerRequest(tracker: CT.ChunkTracker, ops: FO.FileOps, request: Message, buffer: Bytes)
    returns (r: Result<Bytes, UploadError>)
    requires tracker.Valid() && ops.Valid() && ops.lengths == tracker.lengths && request.Request?
    ensures var l, start := ops.lengths, RequestStart(ops.lengths, request);
            var end := start + request.length;
            && (r.Ok? <==> AsksForChunk(l, request) && tracker.Abs().have[request.index]
                           && FO.AllHold(ops.files, ops.fileLengths, start, end))
            && (r.Ok? ==>
                  && RequestInside(l, request)
                  && (ReadsAs(r.value, Piece(request.index, request.begin, ops.Content()[start..end])) <==>
                      LEN_PREFIX_PIECE + request.length < U32_LIMIT))
  {
    hide FO.AllHold, FO.ContentOf, FO.Paired, Encode, ReadsAs, AsksForChunk, CT.Cut;
    var chunk := OnDownloadRequest(tracker, request);
    if chunk.Err? { return Err(chunk.error); }
    var sent := WriteChunkMessage(ops, chunk.value, buffer);
    if sent.Err? { return Err(ReadFailed(sent.error)); }
    var start := RequestStart(ops.lengths, request);
    PieceReadsAs(request.index, request.begin, ops.Content()[start..start + request.length]);
    r := Ok(sent.value);
  }

  lemma PieceReadsAs(index: u32, begin: u32, block: Bytes)
    requires 0 < |block|
    ensures ReadsAs(Encode(Piece(index, begin, block)), Piece(index, begin, block)) <==> 9 + |block| < U32_LIMIT
  {
    hide Encode, Deserialize;
    var m := Piece(index, begin, block);
    forall rest: Bytes, decodable
      ensures Deserialize(Encode(m) + rest, decodable) == Decoded(m, |Encode(m)|) <==> 9 + |block| < U32_LIMIT
    {
      RoundTripIff(m, rest, decodable);
    }
    var no := (b: Bytes) => false;
    assert Deserialize(Encode(m) + [], no) == Decoded(m, |Encode(m)|) <==> 9 + |block| < U32_LIMIT;
  }
}
