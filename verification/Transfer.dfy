// One chunk from one client to another: the answer of `Upload` meets `on_received_piece` of
// live/mod.rs at the other end of the connection.
module Transfer {
  import opened Wrappers
  import opened FlatFiles
  import opened Lengths
  import opened PeerProtocol
  import opened DownloadProtocol
  import opened TorrentStateLive
  import opened Upload
  import CT = ChunkTracker
  import FO = FileOps
  import P = Peers

  // The session asked this live peer for the chunk and did not get it yet, and the peer
  // holds the piece, which is not complete.
  ghost predicate Awaits(cfg: Config, s: State, a: P.Addr, chunk: ChunkInfo)
    requires StartOk(cfg) && CT.Shaped(s.tracker, PieceTotal(cfg))
  {
    var p, c := chunk.pieceIndex, chunk.chunkIndex;
    && P.IsLive(s.peers, a) && (p, c) in s.peers.states[a].live.inflightRequests
    && p in s.inflight && s.inflight[p] == a
    && p < PieceTotal(cfg) && HasRange(cfg.lengths, p) && !CT.All(s.tracker.chunks[p]) && c < |s.tracker.chunks[p]|
  }

  function IsStored(r: Result<ChunkOutcome, LiveError>): bool {
    r == Ok(PieceCompleted) || r == Ok(ChunkStored)
  }

  // The request is gone and the chunk is marked.
  ghost function Arrived(cfg: Config, s: State, a: P.Addr, chunk: ChunkInfo): State
    requires StartOk(cfg) && CT.Shaped(s.tracker, PieceTotal(cfg)) && Awaits(cfg, s, a, chunk)
  {
    Next(cfg, Next(cfg, s, TakeRequest(a, chunk.pieceIndex, chunk.chunkIndex)),
         ChunkArrived(a, chunk.pieceIndex, chunk.chunkIndex))
  }

  // What comes of received data that names a chunk, or none.
  ghost predicate Received(cfg: Config, s: State, s': State, a: P.Addr, chunk: Option<ChunkInfo>, stored: bool)
    requires StartOk(cfg) && CT.Shaped(s.tracker, PieceTotal(cfg))
  {
    && (stored <==> chunk.Some? && Awaits(cfg, s, a, chunk.value))
    && (stored ==> s' == Arrived(cfg, s, a, chunk.value))
  }

  lemma ReceivedMarked(cfg: Config, s: State, a: P.Addr, chunk: ChunkInfo)
    requires StartOk(cfg) && CT.Shaped(s.tracker, PieceTotal(cfg))
    requires Enabled(cfg, s, TakeRequest(a, chunk.pieceIndex, chunk.chunkIndex))
    requires Enabled(cfg, Next(cfg, s, TakeRequest(a, chunk.pieceIndex, chunk.chunkIndex)),
                     ChunkArrived(a, chunk.pieceIndex, chunk.chunkIndex))
    ensures var was := Next(cfg, s, TakeRequest(a, chunk.pieceIndex, chunk.chunkIndex));
            && Received(cfg, s, Next(cfg, was, ChunkArrived(a, chunk.pieceIndex, chunk.chunkIndex)), a, Some(chunk),
                        IsStored(Ok(OutcomeOf(cfg, was, a, chunk.pieceIndex, chunk.chunkIndex))))
  {
    hide HasRange, CT.All;
  }

  lemma NotAwaited(cfg: Config, s: State, a: P.Addr, chunk: Option<ChunkInfo>, error: LiveError)
    requires StartOk(cfg) && CT.Shaped(s.tracker, PieceTotal(cfg))
    requires error == InvalidPiece ==> chunk.None?
    requires error == PeerNotFound ==> !P.IsLive(s.peers, a)
    requires error == PieceNotRequested ==>
               && chunk.Some? && P.IsLive(s.peers, a)
               && var asked := s.peers.states[a].live.inflightRequests;
                  (chunk.value.pieceIndex, chunk.value.chunkIndex) !in asked
    ensures Received(cfg, s, s, a, chunk, false)
  {
  }

  // `on_received_piece` up to the write.
  method MarkReceived(live: TorrentStateLive, a: P.Addr, index: u32, begin: u32, size: u32)
    returns (r: Result<ChunkOutcome, LiveError>)
    requires live.Valid()
    modifies live, live.peers, live.chunks.chunkStatus
    ensures live.Valid()
    ensures Received(live.Cfg(), old(live.Abs()), live.Abs(), a,
                     ChunkInfoFromReceivedPiece(live.lengths, index, begin, size), IsStored(r))
  {
    hide Inv, InitiallyNeededBytes, Next, Enabled, Received, OutcomeOf, ChunkInfoFromReceivedPiece, StartOk;
    hide CT.Cut, P.IsLive, Fits;
    ghost var s := live.Abs();
    var taken := live.TakeChunkRequest(a, index, begin, size);
    if taken.Err? {
      NotAwaited(live.Cfg(), s, a, ChunkInfoFromReceivedPiece(live.lengths, index, begin, size), taken.error);
      return Err(taken.error);
    }
    var outcome := live.MarkChunkDownloaded(a, index, begin, size);
    ReceivedMarked(live.Cfg(), s, a, taken.value);
    r := Ok(outcome);
  }

  // A block is written exactly when it is a chunk that the session awaits from this peer.
  // Then the chunk is marked, and nothing but its bytes changes in the files.
  method OnReceivedPiece(live: TorrentStateLive, a: P.Addr, ops: FO.FileOps, piece: Message)
    returns (r: Result<ChunkOutcome, LiveError>)
    requires live.Valid() && ops.Valid() && ops.lengths == live.lengths
    requires piece.Piece? && |piece.block| < U32_LIMIT
    modifies live, live.peers, live.chunks.chunkStatus, ops
    ensures live.Valid() && ops.Valid()
    ensures Received(live.Cfg(), old(live.Abs()), live.Abs(), a,
                     ChunkInfoFromReceivedPiece(live.lengths, piece.index, piece.begin, |piece.block|), IsStored(r))
    ensures IsStored(r) ==>
              var start := PieceOffset(ops.lengths, piece.index) + piece.begin;
              && start + |piece.block| <= ops.lengths.totalLength
              && ops.Content() == Splice(old(ops.Content()), start, piece.block)
    ensures !IsStored(r) ==> ops.files == old(ops.files)
  {
    hide Inv, InitiallyNeededBytes, Awaits, Arrived, Splice, FO.ContentOf, FO.Paired, StartOk;
    hide ChunkInfoFromReceivedPiece;
    r := MarkReceived(live, a, piece.index, piece.begin, |piece.block|);
    if IsStored(r) {
      ReceivedInside(live.lengths, piece.index, piece.begin, |piece.block|);
      var chunk := ChunkInfoFromReceivedPiece(live.lengths, piece.index, piece.begin, |piece.block|);
      ops.WriteChunk(piece.block, chunk.value);
    }
  }

  lemma ReceivedInside(l: Lengths, index: u32, begin: u32, size: u32)
    requires Sane(l) && ChunkInfoFromReceivedPiece(l, index, begin, size).Some?
    ensures var chunk := ChunkInfoFromReceivedPiece(l, index, begin, size).value;
            && chunk.pieceIndex == index && chunk.offset == begin && index <= l.lastPieceId
            && PieceOffset(l, index) + begin + size <= l.totalLength
  {
    ReceivedDataIsExactlyAChunk(l, index, begin, size);
    ChunkInside(l, Request(index, begin, size));
  }

  // What we can answer with: a chunk of a piece that we have, whose bytes the files hold.
  ghost predicate CanAnswer(tracker: CT.Tracker, ops: FO.FileOps, request: Message)
    requires ops.Readable() && Sane(ops.lengths) && request.Request? && |tracker.have| == ops.lengths.lastPieceId + 1
    reads ops
  {
    && AsksForChunk(ops.lengths, request) && tracker.have[request.index]
    && FO.AllHold(ops.files, ops.fileLengths, RequestStart(ops.lengths, request),
                  RequestStart(ops.lengths, request) + request.length)
  }

  // Part of the source was copied to the same place, and nothing else changed.
  ghost predicate Copied(before: Bytes, after: Bytes, source: Bytes, start: nat, length: nat) {
    && start + length <= |before| == |source|
    && after == Splice(before, start, source[start..start + length])
  }

  // One client answers a request, and another one that downloads the same torrent reads the
  // answer, whatever follows it in the stream. The chunk is stored if and only if the first
  // can answer and the second awaits it from this peer; then the second's files agree with
  // the first's on the chunk, its bit is set, and nothing else changes in the files.
  method TransferChunk(tracker: CT.ChunkTracker, from: FO.FileOps, live: TorrentStateLive, a: P.Addr, to: FO.FileOps,
                       request: Message, buffer: Bytes, rest: Bytes, decodable: Bytes -> bool)
    returns (stored: bool)
    requires tracker.Valid() && from.Valid() && to.Valid() && live.Valid() && request.Request?
    requires from != to && from.lengths == to.lengths == tracker.lengths == live.lengths
    requires LEN_PREFIX_PIECE + request.length < U32_LIMIT
    modifies live, live.peers, live.chunks.chunkStatus, to
    ensures to.Valid() && live.Valid()
    ensures var chunk := ChunkInfoFromReceivedPiece(to.lengths, request.index, request.begin, request.length);
            var sent := if old(CanAnswer(tracker.Abs(), from, request)) then chunk else None;
            Received(live.Cfg(), old(live.Abs()), live.Abs(), a, sent, stored)
    ensures stored ==> Copied(old(to.Content()), to.Content(), from.Content(), RequestStart(from.lengths, request),
                              request.length)
    ensures !stored ==> to.files == old(to.files)
  {
    hide FO.AllHold, FO.ContentOf, FO.Paired, AsksForChunk, Deserialize, Splice, CT.Cut, Inv, StartOk, Awaits, Arrived;
    hide ChunkInfoFromReceivedPiece, InitiallyNeededBytes, Fits;
    var sent := AnswerRequest(tracker, from, request, buffer);
    if sent.Err? { return false; }
    ghost var start := RequestStart(from.lengths, request);
    assert Deserialize(sent.value + rest, decodable) ==
           Decoded(Piece(request.index, request.begin, from.Content()[start..start + request.length]), |sent.value|);
    var received := Deserialize(sent.value + rest, decodable);
    var outcome := OnReceivedPiece(live, a, to, received.msg);
    stored := IsStored(outcome);
  }
}
