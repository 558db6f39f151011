# A verified model of rqbit

rqbit is a BitTorrent client written in Rust. This project models the parts of it where
many things happen to shared state, or where bytes have to agree with other bytes, and
proves what those parts promise:

* **The download protocol** (`DownloadProtocol`, `DownloadReachability`, `DownloadProgress`,
  `TorrentStateLive`, `ChunkTracker`, `Peers`). Peer handlers reserve, steal, receive, complete, verify, fail, die and
  pause in any order. Each region run under one lock is an event; a run is any sequence of enabled
  events. The invariant, byte conservation and the meaning of "finished" are proved over all runs;
  it is proved exactly which sessions and which states of a session can finish, and exactly what
  a pause can leave behind; and the live torrent object is proved, method by method, to perform exactly those events in place.
* **Storage** (`Lengths`, `FlatFiles`, `FileOps`, `Verdicts`, `InitialCheck`, `CreateTorrent`,
  `Initializing`). A list of files, shorter or longer than declared, is one flat byte array; chunks
  and pieces are slices of it; what the check makes of each piece is a function of the files alone;
  creating a torrent and checking the same files agree; and what the check finds starts a session
  cleanly.
* **The DHT routing table** (`HashId`, `NodeList`, `BucketTree`, `RoutingTable`). The splitting
  bucket tree refines a sorted map from id to node, and the arena it grows in stays small.
* **Bencode** (`BencodeValue`, `Bencode`). Printing and parsing are inverse whatever follows, and
  the info hash is the hash of the raw bytes of the top-level "info" value.
* **Wire framing** (`PeerProtocol`, `ReadBuf`, `Upload`, `Transfer`). Messages survive being cut
  into reads of any sizes; the answer to a chunk request carries exactly the requested bytes of the
  torrent, and the client that asked stores exactly those.
* **DHT lookup and peer store** (`UsefulNodes`, `DhtLookup`, `PeerStore`). Lookups end, candidate
  lists and stores stay bounded and consistent.

`Wrappers`, `Arithmetic` and `SocketAddrs` hold what the others share. SHA-1 is a function
parameter on byte strings, a clock reading is a number passed in, random bytes are passed in,
and answers of the network are chosen arbitrarily.

Objects that the source updates in place are classes whose methods are proved against functions
on values; what the source promises is then proved about those functions, and over all runs. What
a function means that a method shares with its contract is stated without it: in the fields, bytes
and numbers themselves.

## What the proofs found

Places where the code does something other than its comments or names suggest. Each is stated
as the code behaves.

* `check_piece` answers true as soon as all bytes of the piece were read; the hash is compared
  only after the loop over the files ends, which no piece of a torrent reaches
  (`FileOps.FileOps.CheckPiece`). The protocol therefore leaves its verdict open.
* When the chunk length does not divide the piece length, the chunk bitfield can be shorter than
  the chunk ranges of the pieces: exactly when the chunk slots that the pieces waste are more than
  the padding of its last byte (`Lengths.ChunkBitfieldCoversIff`). Computing the chunk status then
  unwraps a missing range exactly when some piece without a range is not needed
  (`ChunkTracker.ComputeChunkStatus`, with lengths where it does and where it does not in
  `ChunkTracker.StatusCanFail`). When it does not, the session starts, but a needed piece without
  a range is never completed (`DownloadReachability.RangelessNeverComplete`).
* A torrent created from files whose last file is empty and whose total is no multiple of the
  piece length lacks the last piece's digest, and checking it fails. That is the only case
  (`CreateTorrent.CreateThenCheck`).
* A session can finish if and only if every piece it needs is not yet had, has a chunk left to
  fetch and has a range in the chunk bitfield (`DownloadReachability.CanFinishIff`). A session
  started by the resume check meets the first two (`Initializing.CheckThenStart`). One resumed
  after a pause need not: a robbed peer's death makes its piece needed again while the thief goes
  on with it. If the thief's piece is under verification at the pause, it stays needed with all
  its chunk bits set; if it was verified before the pause, it is needed although we have it. In
  both cases the next session never finishes (`DownloadReachability.NextSessionCanFinishIff` says
  so at every state). Both arise from exactly the pieces that can be downloaded in a session in
  which another piece can be too, because a thief must have completed a piece before
  (`DownloadReachability.StuckAfterPauseIff`, `DownloadReachability.HadAndNeededAfterPauseIff`).
* A piece under verification at a pause that nobody needs again is in neither set afterwards
  (`DownloadProtocol.PauseLosesOnly`). That can happen to exactly the needed pieces that can be
  downloaded in the session (`DownloadReachability.LostAfterPauseIff`).
* A piece in flight moves again only through a connection that was given it, or a thief. A session
  in which nobody else can steal is frozen once every unfinished piece is in flight with
  connections that ended (`DownloadProgress.CanStillFinishIff`). It does not come to that while a
  connection that holds a piece ends only with a request for it open
  (`DownloadProgress.DiligentCanFinishIff`).
* The routing table's own size also grows when a bad node is replaced; the bucket tree's size is
  the exact count (`RoutingTable.Table.AddNode`).
* A cancel message is written with the id of a request; an extended message with fewer than six
  payload bytes is written but refused by the reader (`PeerProtocol.RoundTripIff`).
* A handshake is accepted only if one read brings all of it (`ReadBuf.Buffer.ReadHandshake`).
* A lookup sends every request twice and uses the nodes of the second answer only
  (`DhtLookup.FirstAnswer`, `DhtLookup.SecondAnswer`). The lookup that fills the routing table
  drops the receiving end of its peer channel at once, so an answer that lists peers counts as an
  error and its nodes are not requested (`DhtLookup.SecondAnswer`).
* The initial check skips a file from the first read past its end on, and notices a missing part
  only in the piece that met it: later pieces of that file are hashed without those bytes. Its
  verdict that we have a piece is right for every hash string if and only if the files hold the
  piece, or the piece is selected and some file's first missing byte lies in it
  (`Verdicts.HaveIsRightIff`). With one missing file of two pieces the second is put in `have`
  when its digest is that of no bytes (`Verdicts.HadWithoutItsBytes`).

## Model

| member | source | states |
|---|---|---|
| Lengths.NewIsValid | crates/librqbit_core/src/lengths.rs:71-104 | when the piece count fits a u32, a successful `new` describes a torrent cut into full pieces and one nonempty last piece |
| Lengths.New | crates/librqbit_core/src/lengths.rs:71-104 | `new` succeeds exactly on a power-of-two chunk length not above the piece length and a nonempty torrent |
| Lengths.PiecesTileTorrent | crates/librqbit_core/src/lengths.rs:132-150 | pieces lie end to end and their lengths sum to the total length |
| Lengths.ChunksTilePiece | crates/librqbit_core/src/lengths.rs:161-181 | the chunks of a piece tile it: no gap, no overlap, none empty, the last one ends the piece |
| Lengths.IterChunkInfos | crates/librqbit_core/src/lengths.rs:161-181 | the running offset and remaining length yield exactly the chunks, in order |
| Lengths.ReceivedDataIsExactlyAChunk | crates/librqbit_core/src/lengths.rs:183-214 | a received (piece, begin, size) is accepted if and only if it is a chunk of that piece, and then that chunk comes back |
| Lengths.ChunkSizeAt | crates/librqbit_core/src/lengths.rs:227-245 | size and offset lookups agree with the tiling, and find nothing past the last chunk of the piece |
| Lengths.ChunkRangesDisjoint | crates/librqbit_core/src/lengths.rs:216-226 | distinct pieces own disjoint ranges of the chunk bitfield, in piece order |
| Lengths.ChunkRangesPartition | crates/librqbit_core/src/lengths.rs:108-137 | when the chunk length divides the piece length the ranges partition 0..total_chunks and the bitfield covers them |
| Lengths.ChunkBitfieldCoversIff | crates/librqbit_core/src/lengths.rs:108-137 | for all lengths: the torrent has as many chunks as its pieces have slots, less the whole slots they waste; the bitfield covers every range if and only if that waste fits the padding of its last byte |
| Lengths.ChunkBitfieldCanBeTooShort | crates/librqbit_core/src/lengths.rs:71-137 | otherwise the bitfield can be too short: concrete lengths for which it is |
| ChunkTracker.ChunkTracker.New | crates/librqbit/src/chunk_tracker.rs:62-92 | for all lengths and needed pieces: panics exactly when a piece that is not needed has no range; else chunk bits are all set for pieces not needed and all clear for needed ones, and the last needed piece has priority |
| ChunkTracker.ComputeChunkStatus | crates/librqbit/src/chunk_tracker.rs:35-54 | succeeds if and only if every piece that is not needed has its range in the bitfield, and then fills exactly those pieces' ranges |
| ChunkTracker.StatusCanFail | crates/librqbit/src/chunk_tracker.rs:35-54 | concrete lengths for which it fails with nothing needed, and does not with everything needed |
| ChunkTracker.ChunkTracker.ReserveNeededPiece | crates/librqbit/src/chunk_tracker.rs:105-107 | takes one piece out of needed and changes nothing else |
| ChunkTracker.ChunkTracker.MarkChunkRequestCancelled | crates/librqbit/src/chunk_tracker.rs:144-158 | the piece is needed afterwards if and only if it was, or we do not have it and one of its chunk bits is clear; no other piece changes; nothing happens, and only then, when we do not have it and the bitfield lacks its range |
| ChunkTracker.ChunkTracker.MarkPieceBrokenIfNotHave | crates/librqbit/src/chunk_tracker.rs:160-174 | unless we have it, the piece is needed again and every one of its chunk bits is clear; no bit of another piece changes |
| ChunkTracker.ChunkTracker.MarkPieceDownloaded | crates/librqbit/src/chunk_tracker.rs:176-178 | the piece enters have and nothing else changes |
| ChunkTracker.ChunkTracker.MarkChunkDownloaded | crates/librqbit/src/chunk_tracker.rs:188-217 | sets one chunk bit; completed exactly when that made the whole range set, previously completed exactly when it was set before; no chunk and no range are told apart |
| ChunkTracker.ChunkTracker.NextNeededPiece | crates/librqbit/src/chunk_tracker.rs:129-142 | the first wanted piece in priority order, and none only when no needed piece is wanted |
| ChunkTracker.ChunkTracker.CalcHaveBytes | crates/librqbit/src/chunk_tracker.rs:109-117 | the summed lengths of the pieces in have |
| ChunkTracker.ChunkTracker.CalcNeededBytes | crates/librqbit/src/chunk_tracker.rs:119-127 | the summed lengths of the needed pieces |
| ChunkTracker.SetBitAddsPiece | crates/librqbit/src/chunk_tracker.rs:109-127 | setting a clear bit adds exactly that piece's length to the sum |
| ChunkTracker.BytesOfDisjoint | crates/librqbit/src/chunk_tracker.rs:109-127 | the bytes of disjoint piece sets add up |
| Peers.OperationsKeepCounters | crates/librqbit/src/torrent_state/live/peers/mod.rs:29-111 | every operation on the peer table keeps each counter equal to the number of peers in its state |
| Peers.CountersPartitionPeers | crates/librqbit/src/torrent_state/live/peers/stats/atomic.rs:20-43 | the five counters are the numbers of queued, connecting, live, dead and not needed peers; they sum to the number of peers, and the counter of a present peer's state is at least one, so no decrement underflows |
| Peers.PeerStates.AddNew | crates/librqbit/src/torrent_state/live/peers/mod.rs:29-39 | an unseen address is added as queued, and counted as seen; a known one stays as it is |
| Peers.PeerStates.MarkPeerConnecting | crates/librqbit/src/torrent_state/live/peer/mod.rs:125-137 | only a queued peer becomes connecting, and no other peer changes |
| Peers.PeerStates.SetPeerLive | crates/librqbit/src/torrent_state/live/peer/mod.rs:157-172 | only a connecting peer becomes live by a handshake, with no requests and an empty bitfield; no other peer changes |
| Peers.PeerStates.Incoming | crates/librqbit/src/torrent_state/live/mod.rs:290-343 | an incoming connection makes an unknown or a not live and not connecting peer live, with no requests and an empty bitfield; no other peer changes |
| Peers.PeerStates.MarkPeerNotNeeded | crates/librqbit/src/torrent_state/live/peers/mod.rs:106-111 | the state change with its counters |
| Peers.PeerStates.Requeue | crates/librqbit/src/torrent_state/live/mod.rs:872-897 | only a dead peer is queued again |
| Peers.PeerStates.SettleDeadPeer | crates/librqbit/src/torrent_state/live/mod.rs:807-905 | a peer that was live or connecting becomes dead when it died with an error while pieces were missing, else not needed; one that was not needed stays so, one that was queued or dead is dropped; no other peer changes, and every counter stays exact |
| Peers.DeadPeerIsQueuedAgainIff | crates/librqbit/src/torrent_state/live/mod.rs:831-897 | after a death the requeue operation makes the peer queued if and only if it was live or connecting and died with an error while pieces were missing; otherwise a live or connecting peer is not needed, a not needed one stays so, and a queued or dead one is gone; no other peer changes |
| DownloadProtocol.DeadPeerComesBackIff | crates/librqbit/src/torrent_state/live/mod.rs:807-905 | after every run: a peer that dies is live again once it was queued again, connected to and greeted, if and only if it was live or connecting, died with an error, and some piece needed at the start was not yet gained and credited |
| DownloadProtocol.StepKeepsInv | crates/librqbit/src/torrent_state/live/mod.rs:807-1413 | every event of every handler keeps the invariant that ties needed, have, chunk bits, in-flight pieces, verifiers, requests, counters and the byte counter together |
| DownloadProtocol.RunKeepsInv | crates/librqbit/src/torrent_state/live/mod.rs:807-1413 | the invariant holds after every run |
| DownloadProtocol.PiecesAreAccountedFor | crates/librqbit/src/torrent_state/live/mod.rs:908-1413 | after any run each initially needed piece is in have, needed, in flight, under verification or stopped by an I/O error; it has at most one verifier; its chunk bits are all set exactly when it is in have, under verification or stopped |
| DownloadProtocol.OtherPiecesAreUntouched | crates/librqbit/src/torrent_state/live/mod.rs:908-1413 | a piece that was not needed is never requested, rewritten, verified or credited |
| DownloadProtocol.BytesAreConserved | crates/librqbit/src/torrent_state/live/mod.rs:1353-1392 | the byte counter plus the credits outstanding is the length of the pieces that entered have, each credited once, and never exceeds the initially needed bytes |
| DownloadProtocol.FinishedIff | crates/librqbit/src/torrent_state/live/mod.rs:541-547 | finished means exactly that every initially needed piece is in have, was not in it at the start, and is credited |
| DownloadProtocol.HaveOnlyGrows | crates/librqbit/src/chunk_tracker.rs:176-178 | no event takes a piece out of have |
| DownloadProtocol.PausedTorrentCanStart | crates/librqbit/src/torrent_state/live/mod.rs:648-685 | the tracker of a pause at any moment is a valid start; which of its pieces are stuck, exactly |
| DownloadProtocol.PauseLosesOnly | crates/librqbit/src/torrent_state/live/mod.rs:648-685 | an initially needed piece is in neither have nor needed after a pause if and only if its verifier was running or stopped and nobody needed it or had it in flight |
| DownloadProtocol.PauseLosesNothing | crates/librqbit/src/torrent_state/live/mod.rs:648-685 | with no verifier running, every missing piece is needed with a chunk to fetch, and needed bytes are at least the missing bytes, equal if and only if needed and have are disjoint |
| DownloadProtocol.PausedPiecesStartOver | crates/librqbit/src/torrent_state/live/mod.rs:648-685 | a pause leaves every in-flight piece that we do not have needed and with every chunk bit clear, and every other piece as it was |
| DownloadProtocol.FailedPieceStartsOver | crates/librqbit/src/torrent_state/live/mod.rs:1401-1407 | in every state of a run, a piece that fails its check is needed with every chunk bit clear and has no verifier; nothing else changes |
| DownloadReachability.CanFinishIff | crates/librqbit/src/torrent_state/live/mod.rs:541-547 | from any valid start, some run finishes if and only if no needed piece is stuck, already had or without a range in the chunk bitfield; and then an orderly run does |
| DownloadReachability.NextSessionCanFinishIff | crates/librqbit/src/torrent_state/live/mod.rs:648-685 | after a pause at any moment of any run, the next session can finish if and only if no piece it needs is already had, was with a verifier that was running or stopped, or lacks its range |
| DownloadReachability.StuckAfterPauseIff | crates/librqbit/src/chunk_tracker.rs:144-158 | over all orderly runs: a pause can leave a piece needed with every chunk bit set if and only if it was so at the start, or it and another piece can be downloaded in the session |
| DownloadReachability.HadAndNeededAfterPauseIff | crates/librqbit/src/chunk_tracker.rs:144-158 | over all orderly runs: a pause can leave a piece both needed and had if and only if it was so at the start, or it and another piece can be downloaded in the session |
| DownloadReachability.LostAfterPauseIff | crates/librqbit/src/torrent_state/live/mod.rs:648-685 | over all orderly runs: a pause can leave a needed piece in neither have nor needed if and only if the piece can be downloaded in the session |
| DownloadReachability.RangelessNeverComplete | crates/librqbit/src/chunk_tracker.rs:188-217 | in no run does a piece without a range in the chunk bitfield get every chunk bit set |
| DownloadProgress.CanStillFinishIff | crates/librqbit/src/torrent_state/live/mod.rs:807-1413 | from the state after any orderly run, some orderly continuation finishes if and only if no initially needed piece is beyond the session and, if any is unfinished, one of those is needed, was given to an open connection, or can be stolen by somebody other than its holder |
| DownloadProgress.DiligentCanFinishIff | crates/librqbit/src/torrent_state/live/mod.rs:1140-1190 | while connections end only with a request open for each piece they hold, a session can still finish at every moment if and only if it could at its start and no verifier was stopped |
| TorrentStateLive.TorrentStateLive.ReserveNextNeededPiece | crates/librqbit/src/torrent_state/live/mod.rs:908-952 | performs one enabled reservation, of the next needed piece the peer has, or changes nothing |
| TorrentStateLive.TorrentStateLive.TryStealOldSlowPiece | crates/librqbit/src/torrent_state/live/mod.rs:957-983 | performs one enabled steal of the slowest piece of another peer exactly when it is too slow and this peer has an average download time, which takes a completed piece; else changes nothing |
| TorrentStateLive.TorrentStateLive.AddChunkRequest | crates/librqbit/src/torrent_state/live/mod.rs:1146-1172 | adds a chunk to the peer's requests unless the peer died |
| TorrentStateLive.TorrentStateLive.TakeChunkRequest | crates/librqbit/src/torrent_state/live/mod.rs:1229-1270 | succeeds exactly for a chunk that a live peer was asked for, which leaves the requests; the three errors are told apart exactly and change nothing |
| TorrentStateLive.TorrentStateLive.MarkChunkDownloaded | crates/librqbit/src/torrent_state/live/mod.rs:1272-1318 | only the holder's chunks are marked, one bit each; the one that sets the last missing bit takes the piece out of flight and makes its only verifier; each outcome has its exact condition |
| TorrentStateLive.TorrentStateLive.MarkPieceVerified | crates/librqbit/src/torrent_state/live/mod.rs:1348-1359 | the piece enters have and its credit becomes due |
| TorrentStateLive.TorrentStateLive.MarkPieceBroken | crates/librqbit/src/torrent_state/live/mod.rs:1401-1407 | the piece is needed again with every one of its chunk bits clear, and loses its verifier; no other piece changes |
| TorrentStateLive.TorrentStateLive.CreditPiece | crates/librqbit/src/torrent_state/live/mod.rs:1361-1369 | the piece's length is added once |
| TorrentStateLive.TorrentStateLive.OnPeerDied | crates/librqbit/src/torrent_state/live/mod.rs:807-905 | the dead peer becomes dead, not needed or dropped, as told apart above; a piece becomes needed if and only if the peer was live with a request for it, we do not have it, a chunk of it is missing and it has a range; nothing else changes but bookkeeping |
| TorrentStateLive.TorrentStateLive.Pause | crates/librqbit/src/torrent_state/live/mod.rs:648-685 | every in-flight piece that we do not have is needed with all its chunk bits clear, every other piece is as it was, and the byte sums are returned |
| TorrentStateLive.TorrentStateLive.GetLeftToDownloadBytes | crates/librqbit/src/torrent_state/live/mod.rs:541-547 | never underflows, and is zero exactly when finished |
| FlatFiles.FlatSplice | crates/librqbit/src/file_ops.rs:359-408 | overwriting bytes of one file overwrites the same bytes of the flat array |
| FlatFiles.FlatSlice | crates/librqbit/src/file_ops.rs:307-357 | a file's bytes are the flat array's bytes at the file's place |
| FileOps.FileOps.WriteChunk | crates/librqbit/src/file_ops.rs:359-408 | writing a block splices it into the concatenation of the declared parts of all files at the chunk's offset, across file boundaries and empty files; no file gets shorter, and none grows beyond its declared length |
| FileOps.FileOps.ReadChunk | crates/librqbit/src/file_ops.rs:307-357 | returns that same slice; fails if and only if the buffer is too small, or some file does not hold all of its share of the bytes asked for |
| FileOps.FileOps.CheckPiece | crates/librqbit/src/file_ops.rs:237-305 | the hasher is fed exactly the piece's slice, and the verdict is true, if and only if every file holds its share of the piece; else it is a read error |
| FileOps.FileOps.HashRange | crates/librqbit/src/file_ops.rs:237-305 | the walk over the files, also for ranges past the end, where the hash would be compared |
| FileOps.UpdateHashFromFile | crates/librqbit/src/file_ops.rs:39-62 | feeds exactly the asked bytes, or fails when the file is too short after feeding exactly the whole buffers before its end |
| Verdicts.HeldIsFed | crates/librqbit/src/file_ops.rs:118-186 | for a piece whose bytes the files hold, the hasher is fed exactly the piece and no file breaks |
| Verdicts.ListedFilesSelect | crates/librqbit/src/file_ops.rs:114-150 | with a filter, a piece is selected if and only if it meets a file whose index the filter lists |
| Verdicts.NeededWhenListed | crates/librqbit/src/file_ops.rs:114-222 | a piece that holds a byte of a listed file is selected, and needed unless it is had; one that meets no listed file is never needed; none is both needed and had |
| Verdicts.HaveIsRightIff | crates/librqbit/src/file_ops.rs:163-222 | the check's `have` is right for every hash string if and only if the files hold the piece, or the piece is selected and some file's first missing byte lies in it |
| Verdicts.HadWithoutItsBytes | crates/librqbit/src/file_ops.rs:163-222 | a missing file of two pieces: the first is needed, the second is had when its digest is that of no bytes |
| InitialCheck.ReadPiece | crates/librqbit/src/file_ops.rs:118-186 | for any files: it fails exactly when the files end before the piece; else the cursor moves by the piece's length, the files met are those the piece meets, a file breaks exactly when its first missing byte lies in the piece, and the bytes fed are each file's share up to the last whole buffer it can give |
| InitialCheck.DecidePiece | crates/librqbit/src/file_ops.rs:118-222 | for any files: needed, have and selected, and whether there is a verdict at all, are exactly the function of the files, the filter and the hash string that `Verdicts.PieceVerdict` gives, whatever was read before; the piece is selected if and only if it meets a file of the filter, or there is none, and needed if and only if it is selected and not had |
| InitialCheck.InitialCheck | crates/librqbit/src/file_ops.rs:78-235 | succeeds if and only if every piece is in the files and has a verdict; then the bitfields hold exactly the verdicts of all pieces, a piece is needed if and only if it meets a file of the filter and is not had, and the three totals match |
| InitialCheck.CheckableWhen | crates/librqbit/src/file_ops.rs:188-222 | a check of a torrent cannot fail with a hash string that is long enough; with no file shorter than declared, it succeeds only with one |
| InitialCheck.CheckTotalsAddUp | crates/librqbit/src/file_ops.rs:205-235 | needed within selected within needed plus have within the total; with no file filter all three bounds meet |
| CreateTorrent.CreateTorrentRaw | crates/librqbit/src/create_torrent_file.rs:107-174 | for any short reads, the lengths and the digests of all full pieces and of the rest |
| CreateTorrent.HashStringAt | crates/librqbit/src/create_torrent_file.rs:107-159 | the digest at place p is the digest of piece p's slice, for every piece |
| CreateTorrent.HashStringTooShort | crates/librqbit/src/create_torrent_file.rs:155-159 | exactly when the last file is empty and the total is no multiple of the piece length, one digest is missing |
| CreateTorrent.LastHashCanBeLost | crates/librqbit/src/create_torrent_file.rs:155-159 | a one-byte file with an empty file after it: no digest is written for its only piece; without the empty file it is |
| CreateTorrent.CreateThenCheck | crates/librqbit/src/create_torrent_file.rs:79-174 | checking the files a torrent was created from puts every piece in have and none in needed, if and only if no digest is missing; else the check fails |
| Initializing.CheckThenStart | crates/librqbit/src/torrent_state/initializing.rs:42-143 | for all files and lengths: it fails exactly when the check does, and panics exactly when a piece that is not needed has no chunk range; else it starts a session with no stuck piece, needed and have disjoint, its byte total right, finished if and only if nothing is needed, and able to finish if and only if every needed piece has a range |
| HashId.Cmp | crates/librqbit_core/src/hash_id.rs:148-159 | byte-wise order is the order of the big-endian numbers, and equality is equality |
| HashId.NumInjective | crates/librqbit_core/src/hash_id.rs:148-159 | different ids are different numbers |
| HashId.BitOfNum | crates/librqbit_core/src/hash_id.rs:30-34 | bit i of an id is bit 8N-1-i of its number |
| HashId.NumWithBit | crates/librqbit_core/src/hash_id.rs:36-44 | setting or clearing a bit adds or takes away exactly its weight |
| HashId.SetBit | crates/librqbit_core/src/hash_id.rs:36-44 | in place; reading any bit afterwards gives the value written if it is that bit, and what was there before otherwise |
| HashId.FillDistance | crates/librqbit_core/src/hash_id.rs:17-29 | the distance is the exclusive or of the numbers |
| HashId.RangeMembersAreCloser | crates/librqbit_core/src/hash_id.rs:17-29 | an id of an aligned range is XOR-closer to any target of the range than any id outside it |
| HashId.SplitIsHalves | crates/dht/src/routing_table.rs:143-187 | splitting an aligned range of 2^bits ids yields its exact halves, and with two bits or more the asserted inequalities hold |
| HashId.GenerateRandomId | crates/dht/src/routing_table.rs:132-141 | whatever the random bytes, the id lies in the bucket; its leading bits are the bucket's and the others are the random ones |
| NodeList.InsertedIsMapUpdate | crates/dht/src/routing_table.rs:189-195 | the four results of an insertion are the four map updates: none, none, add, remove one bad node and add |
| NodeList.MarkIsMapUpdate | crates/dht/src/routing_table.rs:237-249 | a mark through `get_mut` updates one map entry, or none; what the marks add up to is stated below |
| NodeList.BadIff | crates/dht/src/routing_table.rs:428-476 | for every sequence of marks on a new node: it is bad if and only if a request to it or a response of it occurs and two errors come after its last response |
| NodeList.ErrorsInARowIs | crates/dht/src/routing_table.rs:464-476 | its errors in a row are the errors after its last response |
| NodeList.LastRequestIs | crates/dht/src/routing_table.rs:456-458 | it remembers the last request made to it |
| NodeList.FirstResponseIsRequest | crates/dht/src/routing_table.rs:464-471 | with no request made to it, its first response counts as one |
| NodeList.LastResponseIs | crates/dht/src/routing_table.rs:464-471 | it remembers its last response |
| NodeList.LastQueryIs | crates/dht/src/routing_table.rs:460-462 | it remembers its last query |
| NodeList.SortAfterReplace | crates/dht/src/routing_table.rs:288-299 | sorting after a swap is removing the old node and inserting the new in order |
| BucketTree.ContentsSorted | crates/dht/src/routing_table.rs:211-217 | the nodes below any tree node are strictly ascending and in its range |
| BucketTree.FoundInLeafIff | crates/dht/src/routing_table.rs:219-235 | an id is in the tree if and only if it is in the leaf the descent ends in |
| BucketTree.ContentsThrough | crates/dht/src/routing_table.rs:219-235 | a change in that leaf changes the contents there and nowhere else |
| BucketTree.FullBucketHasFourBits | crates/dht/src/routing_table.rs:308-327 | a full bucket and one more id are nine ids, so no range of fewer than four bits is split |
| BucketTree.SplitKeepsWF | crates/dht/src/routing_table.rs:322-371 | a split keeps the arena's exact shape, at most 315 nodes, and the contents |
| RoutingTable.LeavesPartition | crates/dht/src/routing_table.rs:97-130 | the leaves partition the id space, side by side in ascending order |
| RoutingTable.Buckets.GetLeaf | crates/dht/src/routing_table.rs:219-235 | ends in the one leaf whose range holds the id |
| RoutingTable.Buckets.InsertIntoLeaf | crates/dht/src/routing_table.rs:255-373 | the loop ends; its result is the matching update of the contents; a requested node of the id's bucket with two errors in a row is replaced before anything else, and no other node ever is; ignored only when the table is full, or the bucket holds eight nodes and its range does not hold our id |
| RoutingTable.Buckets.SplitLeaf | crates/dht/src/routing_table.rs:322-371 | contents and size stay, the arena grows by two and stays within 315, the three asserted inequalities hold |
| RoutingTable.Buckets.Mark | crates/dht/src/routing_table.rs:237-249 | changes exactly the node of the id, and says whether there is one |
| RoutingTable.BucketTreeIterator.Next | crates/dht/src/routing_table.rs:104-130 | yields the next leaf from the left, and none only when all were yielded |
| RoutingTable.Iter | crates/dht/src/routing_table.rs:211-217 | all nodes once each, in strictly ascending order of id |
| RoutingTable.Table.AddNode | crates/dht/src/routing_table.rs:528-540 | the map changes as the result says and stays within the limit; a node is evicted only from the id's bucket, and only when it was requested and two errors came after its last response in all that was marked on it; a node is added or turned away only when that bucket has no such node, and turned away only without room; the table's size is the map's size plus the number of replacements |
| RoutingTable.Table.Mark | crates/dht/src/routing_table.rs:541-577 | updates exactly the known node's entry, and the node stays what the marks since it was added make of a new node |
| BencodeValue.RoundTrip | crates/bencode/src/serde_bencode_de.rs:28-84 | for every value and every trailing bytes, parsing what was written yields the value and leaves exactly the trailing bytes |
| BencodeValue.EncodeInjective | crates/bencode/src/bencode_value.rs:13-31 | different values are written differently |
| BencodeValue.SortedKeysAscend | crates/bencode/src/serde_bencode_ser.rs:212-219 | of any two keys of a dict, the one that comes out first is a proper beginning of the other, or has the smaller byte at the first place where they differ |
| BencodeValue.LexLessIff | crates/bencode/src/serde_bencode_ser.rs:179-219 | the order that the serializer compares keys by is that order |
| BencodeValue.WrittenForm | crates/bencode/src/serde_bencode_ser.rs:86-219 | the bytes a value is written as, by kind: length, colon and bytes; "i", decimal, "e"; "l", items, "e"; "d", entries in key order, "e" |
| BencodeValue.DecimalDigits | crates/bencode/src/serde_bencode_ser.rs:86-95 | the decimal form has the digits of the number and no leading zero |
| BencodeValue.DigitsRead | crates/bencode/src/serde_bencode_de.rs:28-67 | whatever reads as a number is its decimal form after any number of zeros |
| BencodeValue.ParseI64Iff | crates/bencode/src/serde_bencode_de.rs:28-42 | a string reads as an integer if and only if it is digits of a number in the range of an i64, after at most one sign |
| BencodeValue.ParseUsizeIff | crates/bencode/src/serde_bencode_de.rs:44-67 | a string reads as a length if and only if it is digits of a number below 2^64, after at most a plus sign |
| BencodeValue.ParseSignedDecimal | crates/bencode/src/serde_bencode_ser.rs:86-88 | every i64 is read back from its decimal form |
| Bencode.ParseValueLocal | crates/bencode/src/serde_bencode_de.rs:207-218 | a successful parse reads a prefix and depends on nothing after it |
| Bencode.BencodeDeserializer.DeserializeAny | crates/bencode/src/serde_bencode_de.rs:207-218 | the object parses as specified, with the same errors; after every success the field context is what it was |
| Bencode.BencodeDeserializer.NextKey | crates/bencode/src/serde_bencode_de.rs:522-534 | pushes the key it read, or ends the dict |
| Bencode.BencodeDeserializer.NextValue | crates/bencode/src/serde_bencode_de.rs:536-551 | pops the key, and hashes the value's raw bytes exactly when the key is a lone "info" |
| Bencode.BencodeDeserializer.VisitMap | crates/bencode/src/bencode_value.rs:77-89 | the loop collects the entries, a later duplicate replacing an earlier one, and keeps context and digest right |
| Bencode.BencodeDeserializer.VisitSeq | crates/bencode/src/bencode_value.rs:59-68 | the loop collects the items in order |
| Bencode.InfoDigest | crates/librqbit_core/src/torrent_metainfo.rs:16-27 | reading a dict leaves the hash of a raw span of the buffer that reads as its "info" value, and no hash when there is none |
| Bencode.FromBytes | crates/bencode/src/serde_bencode_de.rs:86-101 | succeeds exactly when the whole buffer is one value |
| Bencode.TorrentFromBytes | crates/librqbit_core/src/torrent_metainfo.rs:16-27 | the value and its info hash; fails without one. Whether the value has the typed fields of a torrent is left out |
| Bencode.BencodeSerializer.Serialize | crates/bencode/src/bencode_value.rs:13-31 | appends exactly the value's encoding, whatever order a dict's map is walked in |
| Bencode.BencodeSerializer.SerializeDict | crates/bencode/src/serde_bencode_ser.rs:187-219 | entries gathered in any order are written between "d" and "e" in the dictionary order of their keys, each key once |
| Bencode.ComputeInfoHash | crates/librqbit/src/create_torrent_file.rs:47-68 | the hash of the info value's encoding |
| Bencode.WriteThenRead | crates/librqbit/src/create_torrent_file.rs:188-222 | a written torrent reads back as itself with the info hash computed at creation |
| PeerProtocol.Serialize | crates/peer_binary_protocol/src/lib.rs:261-321 | whatever the output buffer held, its first n bytes are the message's encoding, and their first four are n - 4 in big-endian form, if and only if that fits |
| PeerProtocol.PrefixIsLength | crates/peer_binary_protocol/src/lib.rs:244-321 | the length prefix of every message is the length of the rest, if and only if that fits a u32 |
| PeerProtocol.WireForm | crates/peer_binary_protocol/src/lib.rs:24-49 | the bytes of every kind of message: prefix, id and big-endian fields at their places; a cancel goes out with the id of a request |
| PeerProtocol.ReadIff | crates/peer_binary_protocol/src/lib.rs:323-486 | exactly which buffers are read as a given message of a given size, for every kind, in terms of prefix, id and big-endian fields |
| Upload.OnDownloadRequest | crates/librqbit/src/torrent_state/live/mod.rs:985-1027 | a request is accepted if and only if it asks for exactly one chunk of a piece that we have |
| Upload.SerializePiecePreamble | crates/peer_binary_protocol/src/lib.rs:66-76 | writes 13 bytes that, with any block of the chunk's size after them, are the encoding of the piece message; the rest of the buffer stays |
| Upload.AnswerRequest | crates/librqbit/src/peer_connection.rs:291-306 | a request is answered if and only if it is accepted and the files hold the bytes; the answer, whatever follows it, reads as the piece message with exactly the requested slice of the torrent, if and only if the length prefix does not wrap |
| Transfer.OnReceivedPiece | crates/librqbit/src/torrent_state/live/mod.rs:1229-1341 | a block is written if and only if it is a chunk that the session asked this live peer for and the peer holds its unfinished piece; then the request is gone, the chunk is marked, and exactly its bytes change in the files |
| Transfer.TransferChunk | crates/librqbit/src/torrent_state/live/mod.rs:1229-1341 | when the length prefix does not wrap, a request that one client can answer and another awaits is stored, and no other: then the second's files agree with the first's on the chunk and are otherwise as they were |
| PeerProtocol.RoundTripIff | crates/peer_binary_protocol/src/lib.rs:244-486 | a message followed by any bytes reads back as itself and its own size, if and only if it is no cancel, has a nonempty bitfield or block, fits the prefix, and an extended payload has six bytes and decodes |
| PeerProtocol.RefusedIff | crates/peer_binary_protocol/src/lib.rs:323-486 | exactly which buffers are refused, and how: an unknown id, a wrong or too small length prefix, an extended payload that does not decode |
| PeerProtocol.VerdictIsFinal | crates/peer_binary_protocol/src/lib.rs:323-486 | more bytes never change a verdict other than that data is missing, and then at least one byte is asked for |
| PeerProtocol.NeedIsExact | crates/peer_binary_protocol/src/lib.rs:323-486 | once the header is there, the number of bytes asked for is exactly the number missing; before that four or one are asked for |
| PeerProtocol.HandshakeRoundTrip | crates/peer_binary_protocol/src/lib.rs:521-548 | exactly the written handshakes are accepted, and read as themselves: 68 bytes, the first twenty of them 19 and "BitTorrent protocol", then the reserved bytes, the info hash and the peer id |
| ReadBuf.Buffer.PrepareForRead | crates/librqbit/src/read_buf.rs:29-44 | keeps the pending bytes, moves them to the front, and leaves room for the bytes asked for |
| ReadBuf.Buffer.ReadMessage | crates/librqbit/src/read_buf.rs:67-94 | however the stream is cut into reads, the result is that of parsing the whole stream, and exactly that message's bytes are used up; every read has free space |
| ReadBuf.Buffer.ReadHandshake | crates/librqbit/src/read_buf.rs:48-65 | succeeds exactly when one read brings a whole handshake; the rest stays pending |
| ReadBuf.ReadAll | crates/librqbit/src/read_buf.rs:67-94 | repeated reading delivers exactly the sequence of messages that was sent, then the disconnect |
| UsefulNodes.Candidates.ShouldRequestNode | crates/dht/src/dht.rs:480-528 | never at the depth limit; a known node only after a minute; a new one is added, and when one too many a node with a maximal key drops out |
| UsefulNodes.Candidates.MarkNode | crates/dht/src/dht.rs:448-478 | changes the first node of the address and nothing else, and says whether there is one |
| UsefulNodes.SortIsOrderedPermutation | crates/dht/src/dht.rs:506-520 | sorting by the four-part key is an ordered permutation |
| UsefulNodes.SharedPrefixComesFirst | crates/dht/src/dht.rs:506-520 | among nodes that answered alike, those that share the target's leading bits come strictly first |
| UsefulNodes.BestComeFirst | crates/dht/src/dht.rs:506-520 | of any two places in the sorted list, the earlier one holds a node that returned peers if the later does; alike in that, one that answered if the later did; alike in both, the nearer one, so one that shares the target's leading bits if the later does; and of two equally near the one that answered last |
| DhtLookup.FinishDecreases | crates/dht/src/dht.rs:395-446 | a finished request may cause any number of others, one level deeper, and still the open requests decrease lexicographically by depth |
| DhtLookup.StepsKeepRequests | crates/dht/src/dht.rs:395-446 | no step loses or repeats a request: it moves from the queue to its first and its second answer, and then the requests it caused are queued |
| DhtLookup.FindNodeForRoutingTable | crates/dht/src/dht.rs:247-317 | the lookup ends for all answers and interleavings, no request runs deeper than the limit, each is counted once, and at most 32 candidates are known in the end, none twice |
| DhtLookup.RequestNodes | crates/dht/src/dht.rs:426-445 | the nodes of the answer are offered to the candidates one after another, and exactly those they ask for are requested, in that order, one level deeper; at the depth limit none is and the candidates stay |
| DhtLookup.FirstAnswer | crates/dht/src/dht.rs:166-180 | the outcome changes exactly the node's table entry: no answer is one error more in a row, a response or an error response sets the errors to none and the time of the last response to now; either of those marks the first candidate of the address and no other, an unanswered request none |
| DhtLookup.SecondAnswer | crates/dht/src/dht.rs:408-445 | succeeds if and only if it is a response that lists no peers, and then its nodes are requested as said above; nothing is requested otherwise, and only a request without any answer marks a candidate |
| DhtLookup.OnRequestStart | crates/dht/src/dht.rs:156-164 | the node is in the table afterwards, marked as requested, unless its bucket has no bad node and the table or that bucket is full; no other node is added or changed |
| PeerStore.PeerStore.GenTokenFor | crates/dht/src/peer_store.rs:122-135 | the queue stays the last tokens given out, within its limit |
| PeerStore.PeerStore.StorePeer | crates/dht/src/peer_store.rs:137-200 | succeeds exactly for an IPv4 sender, a near info hash, one of the last tokens given to that node id and address, and an address listed already or room for it; lists it once, seen now, under the announced port, or the sender's own when the announcement says so, and changes no other list |
| PeerStore.MaxDistanceIs | crates/dht/src/peer_store.rs:103-119 | an info hash is near when its distance is below 2^140 |
| PeerStore.PeerStore.GetForInfoHash | crates/dht/src/peer_store.rs:202-210 | the stored addresses, none twice, of a near info hash only |
| PeerStore.SumLensUpdate | crates/dht/src/peer_store.rs:176-199 | the counter follows the summed list lengths |

## Left out

- CreateTorrent.CreateThenCheck: for torrents whose piece count fits a u32, as the source's piece index does; beyond that the count wraps.
- Lengths.NewIsValid: the same.
- Sockets, tasks, timeouts, rate limits and logging: only the step that each event causes is modelled, in any order.
- Files on disk: a file is a byte string; opening, permissions and I/O errors other than reading past the end are not modelled. An I/O error in a verifier is the event that stops it.
- SHA-1: any function from byte strings to 20 bytes.
- The order of file writes and chunk marks: a chunk is marked before it is written, and the protocol claims nothing about the content of the files during a download.
- Steal thresholds and back-off times: which piece is the slowest and whether it is too slow are inputs, and a peer that completed a piece has a download time above zero.
- DownloadReachability.StuckAfterPauseIff: over orderly runs, in which a connection asks only for pieces it was given, looks at a chunk after it arrived, and no piece fails its check (none does, see above).
- DownloadReachability.HadAndNeededAfterPauseIff: the same.
- DownloadReachability.LostAfterPauseIff: the same.
- DownloadProgress.CanStillFinishIff: the same; a connection may ask again for chunks of a piece it was given as long as it is open.
- DownloadProgress.DiligentCanFinishIff: that a connection ends in that order is an assumption on its runs. The requester adds the request for the next chunk before it waits, so it holds as long as peers answer only what they were sent.
- Disconnecting peers that have everything, announcing new pieces and reopening files read-only when a torrent ends: they change no modelled state but peer states, which may change at any time anyway.
- The bucket refresh time of a leaf, the status of a node other than bad, and sorting nodes by distance for an answer.
- Bencode.TorrentFromBytes: does not fail when a typed field of the torrent is missing or of another type, because torrents are dicts of bencode values here.
- Typed bencode structs: torrents are dicts of bencode values; error texts and the stack of field names in them are left out, and so is the limit of the call stack.
- Extended message payloads: a predicate says which decode.
- The JSON forms of the routing table and the peer store, and sessions, trackers, the HTTP interface, magnet links, UPnP and the user interfaces.
- PeerStore.PeerStore.StorePeer: calls are one after another; two calls at once could pass the capacity test together.
- DhtLookup.FindNodeForRoutingTable: the depth limit is the constant both callers use.
- ReadBuf.Buffer.PrepareForRead: the size of the buffer is not bounded, as in the source.
