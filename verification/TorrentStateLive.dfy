// The live torrent object of live/mod.rs, in place.
//
// Each method is one region the source runs under its locks, and is proved to be one
// enabled event of the download protocol on the object's state, so the protocol's
// invariant is part of the object's validity.
module TorrentStateLive {
  import opened Wrappers
  import opened Lengths
  import P = Peers
  import CT = ChunkTracker
  import opened DownloadProtocol

  datatype LiveError = PeerNotFound | PieceNotRequested | InvalidPiece

  // What the handler does after a chunk was marked. Without the piece's range it panics.
  datatype ChunkOutcome =
    | PieceCompleted
    | ChunkStored
    | DoneBySomeoneElse
    | StolenBy(thief: P.Addr)
    | NotInflight
    | Panicked

  class TorrentStateLive {
    const peers: P.PeerStates
    var chunks: CT.ChunkTracker?      // null once the torrent was paused
    var inflightPieces: map<nat, P.Addr>
    var downloadedAndCheckedBytes: nat
    // Peers in the table whose counters have an average piece download time.
    var measured: set<P.Addr>
    const initiallyNeededBytes: nat
    const lengths: Lengths
    ghost const start: CT.Tracker
    ghost const priority: seq<nat>
    // What the handlers of the connections are doing; the other parts of this value stand
    // in the fields above.
    ghost var handlers: State

    ghost function Repr(): set<object?>
      reads this, chunks
    {
      {this, peers, peers.stats} + TrackerRepr()
    }

    ghost function TrackerRepr(): set<object?>
      reads this, chunks
    {
      if chunks == null then {} else {chunks, chunks.neededPieces, chunks.chunkStatus, chunks.have}
    }

    ghost function Cfg(): Config { Config(lengths, start, priority) }

    ghost predicate Valid()
      reads this, Repr()
    {
      && chunks != null && chunks.lengths == lengths && chunks.priorityPieceIds == priority
      && chunks.Valid() && peers.Valid()
      && StartOk(Cfg()) && InitiallyNeededBytes(Cfg()) == initiallyNeededBytes
      && Inv(Cfg(), Abs())
    }

    ghost function Abs(): (s: State)
      requires chunks != null && chunks.Valid()
      reads this, peers, peers.stats, chunks
      reads if chunks == null then {} else {chunks.neededPieces, chunks.chunkStatus, chunks.have}
      ensures CT.Shaped(s.tracker, chunks.lengths.lastPieceId + 1)
    {
      handlers.(tracker := chunks.Abs(), inflight := inflightPieces, peers := peers.Table(),
                downloaded := downloadedAndCheckedBytes, measured := measured)
    }

    // A live session over a paused torrent's tracker.
    constructor (tracker: CT.ChunkTracker, neededBytes: nat)
      requires tracker.Valid() && StartOk(Config(tracker.lengths, tracker.Abs(), tracker.priorityPieceIds))
      requires neededBytes == CT.BytesOf(tracker.lengths, tracker.Abs().needed)
      ensures Valid() && Abs() == Initial(Config(tracker.lengths, tracker.Abs(), tracker.priorityPieceIds))
      ensures Cfg() == Config(tracker.lengths, tracker.Abs(), tracker.priorityPieceIds)
      ensures chunks == tracker && fresh(peers) && fresh(peers.stats)
      ensures inflightPieces == map[] && downloadedAndCheckedBytes == 0 && peers.states == map[] && measured == {}
      ensures initiallyNeededBytes == neededBytes
    {
      peers := new P.PeerStates();
      chunks := tracker;
      inflightPieces := map[];
      downloadedAndCheckedBytes := 0;
      measured := {};
      initiallyNeededBytes := neededBytes;
      lengths := tracker.lengths;
      start := tracker.Abs();
      priority := tracker.priorityPieceIds;
      handlers := Initial(Config(tracker.lengths, tracker.Abs(), tracker.priorityPieceIds));
      new;
      InitialInv(Cfg());
    }

    method GetLeftToDownloadBytes() returns (left: nat)
      requires Valid()
      ensures left == initiallyNeededBytes - downloadedAndCheckedBytes
      ensures left == 0 <==> IsFinished(Cfg(), Abs())
    {
      CreditedWasNeeded(Cfg(), Abs());
      left := initiallyNeededBytes - downloadedAndCheckedBytes;
    }

    // The reserved piece is the next needed one that the peer has.
    method ReserveNextNeededPiece(a: P.Addr, iAmChoked: bool) returns (r: Option<nat>)
      requires Valid()
      modifies `inflightPieces, `handlers, chunks.neededPieces
      ensures Valid()
      ensures r == None ==> Abs() == old(Abs())
      ensures r.Some? ==>
                && !iAmChoked && P.IsLive(old(Abs()).peers, a)
                && inflightPieces == old(inflightPieces)[r.value := a]
                && r.value < chunks.neededPieces.Length
                && chunks.neededPieces[..] == old(chunks.neededPieces[..])[r.value := false]
      ensures r.Some? ==> Enabled(Cfg(), old(Abs()), Reserve(a, r.value))
                          && Abs() == Next(Cfg(), old(Abs()), Reserve(a, r.value))
      ensures P.IsLive(old(Abs()).peers, a) && !iAmChoked ==>
                CT.IsNextNeeded(old(Abs()).tracker.needed, priority, old(Abs()).peers.states[a].live.bitfield, r)
    {
      hide Inv, CT.IsNextNeeded, InitiallyNeededBytes;
      if a !in peers.states || !peers.states[a].Live? { return None; }
      if iAmChoked { return None; }
      r := chunks.NextNeededPiece(peers.states[a].live.bitfield);
      if r.None? { return; }
      TakePiece(a, r.value);
    }

    method TakePiece(a: P.Addr, n: nat)
      requires Valid() && Enabled(Cfg(), Abs(), Reserve(a, n))
      modifies `inflightPieces, `handlers, chunks.neededPieces
      ensures Valid() && n < chunks.neededPieces.Length
      ensures inflightPieces == old(inflightPieces)[n := a]
      ensures chunks.neededPieces[..] == old(chunks.neededPieces[..])[n := false]
      ensures Abs() == Next(Cfg(), old(Abs()), Reserve(a, n))
    {
      hide Inv, CT.IsNextNeeded, InitiallyNeededBytes;
      ghost var s := Abs();
      NextIsWanted(s.tracker.needed, priority, peers.states[a].live.bitfield, n);
      StepKeepsInv(Cfg(), s, Reserve(a, n));
      inflightPieces := inflightPieces[n := a];
      chunks.ReserveNeededPiece(n);
      handlers := Next(Cfg(), s, Reserve(a, n));
    }

    // The slowest piece of another peer is taken over if it took `tooSlow` long, by a peer
    // that completed a piece before; which piece is the slowest and whether it is too slow
    // depends on clocks, so both are inputs.
    method TryStealOldSlowPiece(a: P.Addr, slowest: Option<nat>, tooSlow: bool) returns (r: Option<nat>)
      requires Valid()
      requires slowest.Some? ==> slowest.value in inflightPieces && inflightPieces[slowest.value] != a
      modifies `inflightPieces, `handlers
      ensures Valid()
      ensures r == if a in measured && tooSlow then slowest else None
      ensures inflightPieces == if r.Some? then old(inflightPieces)[r.value := a] else old(inflightPieces)
      ensures r == None ==> Abs() == old(Abs())
      ensures r.Some? ==> Enabled(Cfg(), old(Abs()), Steal(a, r.value))
                          && Abs() == Next(Cfg(), old(Abs()), Steal(a, r.value))
    {
      hide Inv, InitiallyNeededBytes;
      if a !in measured { return None; }
      if slowest.None? || !tooSlow { return None; }
      var p := slowest.value;
      ghost var s := Abs();
      StepKeepsInv(Cfg(), s, Steal(a, p));
      inflightPieces := inflightPieces[p := a];
      handlers := Next(Cfg(), s, Steal(a, p));
      r := Some(p);
    }

    // False when the peer died; a chunk requested before is not requested again.
    method AddChunkRequest(a: P.Addr, p: nat, c: nat) returns (alive: bool, added: bool)
      requires Valid() && p in Abs().reserved && p <= lengths.lastPieceId && c < |chunks.Abs().chunks[p]|
      modifies `handlers, peers
      ensures Valid()
      ensures alive == P.IsLive(old(Abs()).peers, a)
      ensures peers.states == if !alive then old(peers.states) else
                old(peers.states)[a := P.Live(old(peers.states[a].live).(
                                    inflightRequests := old(peers.states[a].live.inflightRequests) + {(p, c)}))]
      ensures added == (alive && (p, c) !in old(Abs()).peers.states[a].live.inflightRequests)
      ensures Abs() == if alive then Next(Cfg(), old(Abs()), AddRequest(a, p, c)) else old(Abs())
    {
      hide Inv, InitiallyNeededBytes;
      if a !in peers.states || !peers.states[a].Live? { return false, false; }
      ghost var s := Abs();
      StepKeepsInv(Cfg(), s, AddRequest(a, p, c));
      var live := peers.states[a].live;
      added := (p, c) !in live.inflightRequests;
      peers.SetLive(a, live.(inflightRequests := live.inflightRequests + {(p, c)}));
      handlers := Next(Cfg(), s, AddRequest(a, p, c));
      alive := true;
    }

    // First half of `on_received_piece`: it succeeds exactly for a chunk that this live
    // peer was asked for.
    method TakeChunkRequest(a: P.Addr, index: u32, begin: u32, blockLength: u32)
      returns (r: Result<ChunkInfo, LiveError>)
      requires Valid()
      modifies `handlers, peers
      ensures Valid()
      ensures r.Ok? ==>
                && a in old(peers.states) && old(peers.states[a]).Live?
                && peers.states == old(peers.states)[a := P.Live(old(peers.states[a].live).(
                     inflightRequests := old(peers.states[a].live.inflightRequests)
                                         - {(r.value.pieceIndex, r.value.chunkIndex)}))]
      ensures var info := ChunkInfoFromReceivedPiece(lengths, index, begin, blockLength);
              && (r == Err(InvalidPiece) <==> info.None?)
              && (r == Err(PeerNotFound) <==> info.Some? && !P.IsLive(old(Abs()).peers, a))
              && (r == Err(PieceNotRequested) <==>
                  && info.Some? && P.IsLive(old(Abs()).peers, a)
                  && var asked := old(Abs()).peers.states[a].live.inflightRequests;
                     (info.value.pieceIndex, info.value.chunkIndex) !in asked)
              && (r.Ok? ==> info == Some(r.value))
      ensures r.Err? ==> Abs() == old(Abs())
      ensures r.Ok? ==> Enabled(Cfg(), old(Abs()), TakeRequest(a, r.value.pieceIndex, r.value.chunkIndex))
                        && Abs() == Next(Cfg(), old(Abs()), TakeRequest(a, r.value.pieceIndex, r.value.chunkIndex))
    {
      hide Inv, InitiallyNeededBytes, ChunkInfoFromReceivedPiece;
      var info := ChunkInfoFromReceivedPiece(lengths, index, begin, blockLength);
      if info.None? { return Err(InvalidPiece); }
      if a !in peers.states || !peers.states[a].Live? { return Err(PeerNotFound); }
      var p, c := info.value.pieceIndex, info.value.chunkIndex;
      var live := peers.states[a].live;
      if (p, c) !in live.inflightRequests { return Err(PieceNotRequested); }
      ghost var s := Abs();
      StepKeepsInv(Cfg(), s, TakeRequest(a, p, c));
      peers.SetLive(a, live.(inflightRequests := live.inflightRequests - {(p, c)}));
      handlers := Next(Cfg(), s, TakeRequest(a, p, c));
      r := Ok(info.value);
    }

    // Second half, under the state lock: only the holder of the piece marks its chunks,
    // and whoever sets the last one is the piece's one verifier.
    method MarkChunkDownloaded(a: P.Addr, index: u32, begin: u32, blockLength: u32) returns (r: ChunkOutcome)
      requires Valid() && ChunkInfoFromReceivedPiece(lengths, index, begin, blockLength).Some?
      modifies `inflightPieces, `handlers, chunks.chunkStatus
      ensures Valid()
      ensures var info := ChunkInfoFromReceivedPiece(lengths, index, begin, blockLength).value;
              var e := ChunkArrived(a, info.pieceIndex, info.chunkIndex);
              && Enabled(Cfg(), old(Abs()), e) && Abs() == Next(Cfg(), old(Abs()), e)
              && r == OutcomeOf(Cfg(), old(Abs()), a, info.pieceIndex, info.chunkIndex)
              && ArrivalIs(Cfg(), old(Abs()), Abs(), a, info.pieceIndex, info.chunkIndex, r)
    {
      hide Inv, InitiallyNeededBytes, ChunkInfoFromReceivedPiece, CT.MarkChunk, CT.ChunkMarked, ArrivalIs;
      var info := ChunkInfoFromReceivedPiece(lengths, index, begin, blockLength).value;
      var p, c := info.pieceIndex, info.chunkIndex;
      CT.ReceivedChunkInRange(lengths, index, begin, blockLength);
      ghost var s, e := Abs(), ChunkArrived(a, p, c);
      StepKeepsInv(Cfg(), s, e);
      ChunkArrives(Cfg(), s, a, p, c);
      ArrivalChanges(Cfg(), s, a, p, c);
      hide Next;
      if p !in inflightPieces { return NotInflight; }
      if inflightPieces[p] != a { return StolenBy(inflightPieces[p]); }
      var outcome := chunks.MarkChunkDownloaded(index, begin, blockLength);
      if outcome == CT.Marked(CT.Completed) { inflightPieces := inflightPieces - {p}; }
      handlers := Next(Cfg(), s, e);
      r := match outcome {
        case Marked(Completed) => PieceCompleted
        case Marked(PreviouslyCompleted) => DoneBySomeoneElse
        case Marked(NotCompleted) => ChunkStored
        case _ => Panicked
      };
    }

    // The verifier found the piece good, under the state lock.
    method MarkPieceVerified(p: nat)
      requires Valid() && p in Abs().verifying && p <= lengths.lastPieceId
      modifies `handlers, chunks.have
      ensures Valid() && p < chunks.have.Length && chunks.have[..] == old(chunks.have[..])[p := true]
      ensures handlers.verifying == old(handlers.verifying) - multiset{p}
      ensures handlers.crediting == old(handlers.crediting) + multiset{p}
      ensures Enabled(Cfg(), old(Abs()), VerifyOk(p)) && Abs() == Next(Cfg(), old(Abs()), VerifyOk(p))
    {
      hide Inv, InitiallyNeededBytes;
      ghost var s := Abs();
      StepKeepsInv(Cfg(), s, VerifyOk(p));
      chunks.MarkPieceDownloaded(p);
      handlers := Next(Cfg(), s, VerifyOk(p));
    }

    // The verifier found the piece bad, under the state lock.
    method MarkPieceBroken(p: nat)
      requires Valid() && p in Abs().verifying && p <= lengths.lastPieceId
      modifies `handlers, chunks.neededPieces, chunks.chunkStatus
      ensures Valid()
      ensures chunks.Abs().needed == old(chunks.Abs()).needed[p := true]
      ensures forall c :: 0 <= c < |chunks.Abs().chunks[p]| ==> !chunks.Abs().chunks[p][c]
      ensures forall q: nat :: q <= lengths.lastPieceId && q != p ==>
                chunks.Abs().chunks[q] == old(chunks.Abs()).chunks[q]
      ensures handlers.verifying == old(handlers.verifying) - multiset{p}
      ensures Enabled(Cfg(), old(Abs()), VerifyFailed(p)) && Abs() == Next(Cfg(), old(Abs()), VerifyFailed(p))
    {
      hide Inv, InitiallyNeededBytes;
      ghost var s := Abs();
      StepKeepsInv(Cfg(), s, VerifyFailed(p));
      FailedPieceStartsOver(Cfg(), s, p);
      hide Next, CT.MarkBroken;
      chunks.MarkPieceBrokenIfNotHave(p);
      handlers := Next(Cfg(), s, VerifyFailed(p));
    }

    // Adding the verified piece's bytes to the counters of the torrent and of the peer,
    // after the lock was released.
    method CreditPiece(a: P.Addr, p: nat)
      requires Valid() && Enabled(Cfg(), Abs(), Credit(a, p))
      modifies `downloadedAndCheckedBytes, `measured, `handlers
      ensures Valid()
      ensures downloadedAndCheckedBytes == old(downloadedAndCheckedBytes) + PieceLength(lengths, p)
      ensures handlers.crediting == old(handlers.crediting) - multiset{p}
      ensures measured == if a in peers.states then old(measured) + {a} else old(measured)
      ensures Abs() == Next(Cfg(), old(Abs()), Credit(a, p))
    {
      hide Inv, InitiallyNeededBytes;
      ghost var s := Abs();
      StepKeepsInv(Cfg(), s, Credit(a, p));
      downloadedAndCheckedBytes := downloadedAndCheckedBytes + PieceLength(lengths, p);
      if a in peers.states { measured := measured + {a}; }
      handlers := Next(Cfg(), s, Credit(a, p));
    }

    method OnPeerDied(a: P.Addr, hadError: bool)
      requires Valid()
      modifies `measured, `handlers, peers, peers.stats, chunks.neededPieces
      ensures Valid()
      ensures Abs() == Next(Cfg(), old(Abs()), Died(a, hadError))
      ensures P.Settled(old(peers.states), peers.states, a,
                        hadError && downloadedAndCheckedBytes < initiallyNeededBytes)
      ensures measured == if a in peers.states then old(measured) else old(measured) - {a}
      ensures NeededAfterDeath(lengths, old(peers.states), a, old(Abs()).tracker, chunks.Abs().needed)
    {
      hide InitiallyNeededBytes, AfterDeath, P.PeerDied, Next;
      ghost var s, e := Abs(), Died(a, hadError);
      StepKeepsInv(Cfg(), s, e);
      DiedChanges(Cfg(), s, a, hadError);
      NeededAfter(Cfg(), s, a);
      RequestsInTorrent(Cfg(), s, a);
      hide Inv, IsFinished, NeededAfterDeath, P.Settled;
      var left := GetLeftToDownloadBytes();
      ForgetPeer(a, hadError, left == 0, s);
      handlers := Next(Cfg(), s, e);
    }

    // The peer leaves its state, its requests are cancelled if it was live, and it settles.
    method ForgetPeer(a: P.Addr, hadError: bool, finished: bool, ghost s: State)
      requires chunks != null && chunks.Valid() && chunks.lengths == lengths && peers.Valid() && StartOk(Cfg())
      requires s == Abs() && CT.Shaped(s.tracker, PieceTotal(Cfg()))
      requires P.IsLive(s.peers, a) ==>
                 forall r :: r in s.peers.states[a].live.inflightRequests ==> r.0 <= lengths.lastPieceId
      modifies this`measured, peers, peers.stats, chunks.neededPieces
      ensures chunks.Valid() && peers.Valid()
      ensures P.Settled(old(peers.states), peers.states, a, hadError && !finished)
      ensures peers.Table() == P.PeerDied(s.peers, a, hadError, finished)
      ensures measured == if a in peers.states then s.measured else s.measured - {a}
      ensures chunks.Abs() == AfterDeath(Cfg(), s, a)
    {
      hide CancelAll, P.PeerDied, StartOk;
      if a !in peers.states {
        UnknownPeerDies(s.peers, a, hadError, finished);
        measured := measured - {a};
        return;
      }
      var prev := peers.Set(a, P.Queued);
      if prev.Live? { CancelRequests(chunks, prev.live.inflightRequests); }
      peers.SettleDeadPeer(a, prev, hadError, finished);
      if a !in peers.states { measured := measured - {a}; }
    }

    // Takes the tracker away and marks every in-flight piece broken unless we have it.
    method Pause() returns (tracker: CT.ChunkTracker, haveBytes: nat, neededBytes: nat)
      requires Valid()
      modifies this, chunks.neededPieces, chunks.chunkStatus
      ensures chunks == null && tracker == old(chunks) && tracker.Valid()
      ensures tracker.Abs() == PauseTracker(old(Abs()).tracker, old(inflightPieces).Keys)
      ensures tracker.Abs().have == old(Abs()).tracker.have
      ensures forall p: nat :: p <= lengths.lastPieceId && p in old(inflightPieces) && !tracker.have[p] ==>
                tracker.neededPieces[p] && forall c :: 0 <= c < |tracker.Abs().chunks[p]| ==>
                  !tracker.Abs().chunks[p][c]
      ensures forall p: nat :: p <= lengths.lastPieceId && (p !in old(inflightPieces) || tracker.have[p]) ==>
                && tracker.Abs().needed[p] == old(Abs()).tracker.needed[p]
                && tracker.Abs().chunks[p] == old(Abs()).tracker.chunks[p]
      ensures haveBytes == CT.BytesOf(tracker.lengths, tracker.Abs().have)
      ensures neededBytes == CT.BytesOf(tracker.lengths, tracker.Abs().needed)
    {
      hide PauseTracker, Inv;
      tracker := chunks;
      ghost var s := Abs();
      PiecesInTorrent(Cfg(), s);
      PausedPiecesStartOver(s.tracker, inflightPieces.Keys);
      chunks := null;
      BreakAll(tracker, inflightPieces.Keys);
      haveBytes := tracker.CalcHaveBytes();
      neededBytes := tracker.CalcNeededBytes();
    }
  }

  // A piece that a live peer had an open request for is needed again, unless we have it, or
  // its chunk bits are all set, or the bitfield lacks its range. No other becomes needed.
  ghost predicate NeededAfterDeath(l: Lengths, was: map<P.Addr, P.PeerState>, a: P.Addr, t: CT.Tracker,
                                   needed: seq<bool>)
    requires l.chunkLength > 0 && CT.Shaped(t, l.lastPieceId + 1)
  {
    && |needed| == |t.needed|
    && forall p: nat :: p < |needed| ==>
        (needed[p] <==>
         || t.needed[p]
         || (&& a in was && was[a].Live?
             && (exists c :: (p, c) in was[a].live.inflightRequests)
             && Covered(l, p) && !t.have[p] && exists c :: 0 <= c < |t.chunks[p]| && !t.chunks[p][c]))
  }

  // What the handler of a chunk finds, in terms of the state before.
  ghost function OutcomeOf(cfg: Config, s: State, a: P.Addr, p: nat, c: nat): ChunkOutcome
    requires StartOk(cfg) && CT.Shaped(s.tracker, PieceTotal(cfg)) && p < PieceTotal(cfg) && c < |s.tracker.chunks[p]|
  {
    if p !in s.inflight then NotInflight
    else if s.inflight[p] != a then StolenBy(s.inflight[p])
    else if !HasRange(cfg.lengths, p) then Panicked
    else
      match CT.MarkChunk(s.tracker, p, c).1
      case Completed => PieceCompleted
      case PreviouslyCompleted => DoneBySomeoneElse
      case NotCompleted => ChunkStored
  }

  // The parts of the state that an arriving chunk can change, and when.
  lemma ArrivalChanges(cfg: Config, s: State, a: P.Addr, p: nat, c: nat)
    requires StartOk(cfg) && CT.Shaped(s.tracker, PieceTotal(cfg)) && p < PieceTotal(cfg) && c < |s.tracker.chunks[p]|
    ensures var s' := Next(cfg, s, ChunkArrived(a, p, c));
            && (p !in s.inflight || s.inflight[p] != a || !HasRange(cfg.lengths, p) ==> s' == s)
            && (p in s.inflight && s.inflight[p] == a && HasRange(cfg.lengths, p) ==>
                && s'.tracker == CT.MarkChunk(s.tracker, p, c).0
                && s'.inflight == (if CT.MarkChunk(s.tracker, p, c).1 == CT.Completed then s.inflight - {p}
                                   else s.inflight)
                && s'.peers == s.peers && s'.downloaded == s.downloaded && s'.measured == s.measured)
  {
    hide CT.MarkChunk;
  }

  // What an arriving chunk does in each of these cases: only the holder's chunk is marked,
  // and the one that sets the last missing bit takes the piece out of flight and makes its
  // verifier.
  ghost predicate ArrivalIs(cfg: Config, s: State, s': State, a: P.Addr, p: nat, c: nat, r: ChunkOutcome)
    requires StartOk(cfg) && CT.Shaped(s.tracker, PieceTotal(cfg)) && CT.Shaped(s'.tracker, PieceTotal(cfg))
    requires p < PieceTotal(cfg)
  {
    var was, now := s.tracker.chunks, s'.tracker.chunks;
    && (r == NotInflight <==> p !in s.inflight)
    && (r.StolenBy? <==> p in s.inflight && s.inflight[p] != a)
    && (r.StolenBy? ==> r.thief == s.inflight[p])
    && (r == Panicked <==> p in s.inflight && s.inflight[p] == a && !Covered(cfg.lengths, p))
    && s'.inflight == (if r == PieceCompleted then s.inflight - {p} else s.inflight)
    && s'.verifying == (if r == PieceCompleted then s.verifying + multiset{p} else s.verifying)
    && (r == PieceCompleted || r == ChunkStored ==> CT.BitSet(was, now, p, c))
    && (r == PieceCompleted ==> forall k :: 0 <= k < |now[p]| ==> now[p][k])
    && (r == ChunkStored ==> exists k :: 0 <= k < |now[p]| && !now[p][k])
    && (r == DoneBySomeoneElse ==> forall k :: 0 <= k < |was[p]| ==> was[p][k])
    && (r != PieceCompleted && r != ChunkStored ==> s'.tracker == s.tracker)
    && s'.tracker.needed == s.tracker.needed && s'.tracker.have == s.tracker.have
    && s'.peers == s.peers && s'.downloaded == s.downloaded
  }

  lemma ChunkArrives(cfg: Config, s: State, a: P.Addr, p: nat, c: nat)
    requires StartOk(cfg) && CT.Shaped(s.tracker, PieceTotal(cfg)) && p < PieceTotal(cfg) && c < |s.tracker.chunks[p]|
    ensures ArrivalIs(cfg, s, Next(cfg, s, ChunkArrived(a, p, c)), a, p, c, OutcomeOf(cfg, s, a, p, c))
  {
  }

  lemma PiecesInTorrent(cfg: Config, s: State)
    requires StartOk(cfg) && Inv(cfg, s)
    ensures forall p :: p in s.inflight.Keys ==> p <= cfg.lengths.lastPieceId
  {
    forall p | p in s.inflight.Keys ensures p <= cfg.lengths.lastPieceId { assert p in s.inflight; }
  }

  // The pieces needed after a death.
  lemma NeededAfter(cfg: Config, s: State, a: P.Addr)
    requires StartOk(cfg) && CT.Shaped(s.tracker, PieceTotal(cfg))
    ensures NeededAfterDeath(cfg.lengths, s.peers.states, a, s.tracker, AfterDeath(cfg, s, a).needed)
  {
    if P.IsLive(s.peers, a) {
      var requests := s.peers.states[a].live.inflightRequests;
      forall p: nat ensures HasRequest(requests, p) <==> exists c :: (p, c) in requests {
        if HasRequest(requests, p) {
          var r :| r in requests && r.0 == p;
          assert (p, r.1) in requests;
        }
      }
    }
  }

  lemma NextIsWanted(needed: seq<bool>, priority: seq<nat>, bitfield: seq<bool>, n: nat)
    requires CT.IsNextNeeded(needed, priority, bitfield, Some(n))
    ensures n < |needed| && needed[n]
  {
  }

  // What a death changes of the parts that stand in fields.
  lemma DiedChanges(cfg: Config, s: State, a: P.Addr, hadError: bool)
    requires StartOk(cfg) && CT.Shaped(s.tracker, PieceTotal(cfg))
    ensures var s' := Next(cfg, s, Died(a, hadError));
            && s'.tracker == AfterDeath(cfg, s, a)
            && s'.peers == P.PeerDied(s.peers, a, hadError, IsFinished(cfg, s))
            && s'.measured == (if a in s'.peers.states then s.measured else s.measured - {a})
            && s'.inflight == s.inflight && s'.downloaded == s.downloaded
  {
    hide AfterDeath, P.PeerDied, IsFinished;
  }

  // Requests are only made for pieces of the torrent.
  lemma RequestsInTorrent(cfg: Config, s: State, a: P.Addr)
    requires StartOk(cfg) && Inv(cfg, s)
    ensures P.IsLive(s.peers, a) ==>
              forall r :: r in s.peers.states[a].live.inflightRequests ==> r.0 <= cfg.lengths.lastPieceId
  {
  }

  lemma UnknownPeerDies(t: P.PeerTable, a: P.Addr, hadError: bool, finished: bool)
    requires a !in t.states
    ensures P.PeerDied(t, a, hadError, finished) == t
  {
  }

  // Marks each piece broken unless we have it, in whatever order the set gives them.
  method BreakAll(tracker: CT.ChunkTracker, pieces: set<nat>)
    requires tracker.Valid()
    requires forall p :: p in pieces ==> p <= tracker.lengths.lastPieceId
    modifies tracker.neededPieces, tracker.chunkStatus
    ensures tracker.Valid() && tracker.Abs() == PauseTracker(old(tracker.Abs()), pieces)
  {
    var rest := pieces;
    ghost var done: set<nat> := {};
    ghost var t := tracker.Abs();
    assert PauseTracker(t, done).needed == t.needed && PauseTracker(t, done).chunks == t.chunks;
    while rest != {}
      invariant rest + done == pieces && rest !! done
      invariant tracker.Valid() && tracker.Abs() == PauseTracker(t, done)
      decreases rest
    {
      var p :| p in rest;
      BreakOneMore(t, done, p);
      tracker.MarkPieceBrokenIfNotHave(p);
      rest := rest - {p};
      done := done + {p};
    }
    assert done == pieces;
  }

  // Cancels the requests of a peer that just died, in whatever order the set gives them.
  method CancelRequests(tracker: CT.ChunkTracker, requests: set<P.InflightRequest>)
    requires tracker.Valid()
    requires forall r :: r in requests ==> r.0 <= tracker.lengths.lastPieceId
    modifies tracker.neededPieces
    ensures tracker.Valid() && tracker.Abs() == CancelAll(tracker.lengths, old(tracker.Abs()), requests)
  {
    hide HasRequest;
    var rest := requests;
    ghost var done: set<P.InflightRequest> := {};
    ghost var t := tracker.Abs();
    NothingCancelled(tracker.lengths, t);
    while rest != {}
      invariant rest + done == requests && rest !! done
      invariant tracker.Valid() && tracker.Abs() == CancelAll(tracker.lengths, t, done)
      decreases rest
    {
      var r :| r in rest;
      CancelOneMore(tracker.lengths, t, done, r);
      var changed := tracker.MarkChunkRequestCancelled(r.0, r.1);
      CancelChecked(tracker.lengths, CancelAll(tracker.lengths, t, done), r.0);
      rest := rest - {r};
      done := done + {r};
    }
    assert done == requests;
  }

  lemma NothingCancelled(l: Lengths, t: CT.Tracker)
    requires l.chunkLength > 0 && |t.needed| == |t.chunks| == |t.have|
    ensures CancelAll(l, t, {}) == t
  {
    assert CancelAll(l, t, {}).needed == t.needed;
  }

  // Cancelling changes nothing for a piece we have.
  lemma CancelChecked(l: Lengths, t: CT.Tracker, p: nat)
    requires l.chunkLength > 0 && p < |t.needed| == |t.chunks| == |t.have|
    ensures t.have[p] ==> CT.CancelRequest(t, p) == t
  {
  }
}
