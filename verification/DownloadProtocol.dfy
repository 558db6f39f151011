// The download protocol of a live torrent: live/mod.rs.
//
// Peer handlers share the chunk tracker, the map of in-flight pieces and the peer
// table. Each region the source runs under one lock is one atomic event here, and
// events of all handlers interleave in any order. A handler that completed a piece
// and has yet to verify it, and one that marked a piece as downloaded and has yet to
// add its bytes to the counter, are kept as program counters (`verifying`,
// `crediting`), so that marking and crediting are two separate events, as they are
// in the source.
module DownloadProtocol {
  import opened Wrappers
  import opened Lengths
  import opened Peers
  import opened ChunkTracker

  // A live session: the torrent's lengths, the tracker the session started with, and the
  // pieces to take first.
  datatype Config = Config(lengths: Lengths, start: Tracker, priority: seq<nat>)

  datatype State = State(
    tracker: Tracker,
    inflight: map<nat, Addr>,
    peers: PeerTable,
    downloaded: nat,        // downloaded_and_checked_bytes
    verifying: multiset<nat>,
    crediting: multiset<nat>,
    lost: set<nat>,         // every chunk bit set, but no handler will ever verify it
    reserved: set<nat>,     // every piece some requester was ever given
    given: set<(Addr, nat)>,          // which requester, of a connection still open, was given which
    took: set<(Addr, nat, nat)>,      // chunks that arrived on it after they were requested
    verifier: map<nat, Addr>,         // who completed a piece last
    measured: set<Addr>)    // peers in the table whose counters have an average piece download time

  datatype Event =
    | PeerAdded(a: Addr)
    | PeerConnecting(a: Addr)
    | PeerHandshake(a: Addr)
    | PeerIncoming(a: Addr)
    | PeerRequeued(a: Addr)
    | PeerDropped(a: Addr)
    | PeerNotNeeded(a: Addr)
    | PeerUpdated(a: Addr, interested: bool, bitfield: seq<bool>)
    | Reserve(a: Addr, p: nat)
    | Steal(a: Addr, p: nat)
    | AddRequest(a: Addr, p: nat, c: nat)
    | TakeRequest(a: Addr, p: nat, c: nat)
    | ChunkArrived(a: Addr, p: nat, c: nat)
    | VerifyOk(p: nat)
    | VerifyFailed(p: nat)
    | VerifyAborted(p: nat)
    | Credit(a: Addr, p: nat)
    | Died(a: Addr, hadError: bool)

  ghost function PieceTotal(cfg: Config): nat { cfg.lengths.lastPieceId + 1 }

  // What a session may start from: a piece that we have, or that is not needed, has
  // every chunk bit set.
  ghost predicate StartOk(cfg: Config) {
    && Valid(cfg.lengths)
    && Shaped(cfg.start, PieceTotal(cfg))
    && forall p: nat :: p < PieceTotal(cfg) && (cfg.start.have[p] || !cfg.start.needed[p]) ==> All(cfg.start.chunks[p])
  }

  // Needed pieces whose chunk bits are all set although we do not have them.
  ghost function Stuck(t: Tracker): set<nat>
    requires |t.needed| == |t.chunks| == |t.have|
  {
    set p: nat | p < |t.needed| && t.needed[p] && !t.have[p] && All(t.chunks[p])
  }

  ghost function Initial(cfg: Config): State
    requires StartOk(cfg)
  {
    State(cfg.start, map[], EMPTY_TABLE, 0, multiset{}, multiset{}, Stuck(cfg.start), {}, {}, {}, map[], {})
  }

  ghost function InitiallyNeededBytes(cfg: Config): nat
    requires StartOk(cfg)
  {
    BytesOf(cfg.lengths, cfg.start.needed)
  }

  ghost predicate IsFinished(cfg: Config, s: State)
    requires StartOk(cfg)
  {
    InitiallyNeededBytes(cfg) - s.downloaded == 0
  }

  // ---- events -------------------------------------------------------------------------

  ghost predicate HasRequest(requests: set<InflightRequest>, p: nat) {
    exists r :: r in requests && r.0 == p
  }

  // The chunk bitfield has the range of piece p.
  ghost predicate HasRange(l: Lengths, p: nat)
    requires l.chunkLength > 0
  {
    p <= l.lastPieceId && Covered(l, p)
  }

  // Cancelling every request of a dead peer, in any order.
  ghost function CancelAll(l: Lengths, t: Tracker, requests: set<InflightRequest>): (r: Tracker)
    requires l.chunkLength > 0 && |t.needed| == |t.chunks| == |t.have|
    ensures |r.needed| == |t.needed|
  {
    t.(needed := seq(|t.needed|, p requires 0 <= p < |t.needed| =>
                       t.needed[p] || (HasRequest(requests, p) && HasRange(l, p) && !t.have[p] && !All(t.chunks[p]))))
  }

  lemma CancelOneMore(l: Lengths, t: Tracker, done: set<InflightRequest>, r: InflightRequest)
    requires l.chunkLength > 0 && |t.needed| == |t.chunks| == |t.have| && r.0 < |t.needed|
    ensures CancelAll(l, t, done + {r}) ==
            if HasRange(l, r.0) then CancelRequest(CancelAll(l, t, done), r.0) else CancelAll(l, t, done)
  {
    hide HasRange;
    var before := CancelAll(l, t, done);
    var after := CancelAll(l, t, done + {r}).needed;
    var one := (if HasRange(l, r.0) then CancelRequest(before, r.0) else before).needed;
    forall p | 0 <= p < |after| ensures after[p] == one[p] {
      if HasRequest(done + {r}, p) && p != r.0 { assert HasRequest(done, p); }
      if HasRequest(done, p) {
        var q :| q in done && q.0 == p;
        assert q in done + {r};
      }
      if p == r.0 { assert r in done + {r}; }
    }
    assert after == one;
  }

  ghost predicate Enabled(cfg: Config, s: State, e: Event)
    requires StartOk(cfg) && Shaped(s.tracker, PieceTotal(cfg))
  {
    match e
    case PeerUpdated(a, _, _) => IsLive(s.peers, a)
    // The next needed piece that the peer has.
    case Reserve(a, p) =>
      IsLive(s.peers, a) && IsNextNeeded(s.tracker.needed, cfg.priority, s.peers.states[a].live.bitfield, Some(p))
    // A peer that never completed a piece has no download time to compare with.
    case Steal(a, p) => a in s.measured && p in s.inflight && s.inflight[p] != a
    // The requester asks for chunks of a piece it reserved or stole earlier; the piece
    // may have been stolen, finished or failed since.
    case AddRequest(a, p, c) =>
      IsLive(s.peers, a) && p in s.reserved && p < PieceTotal(cfg) && c < |s.tracker.chunks[p]|
    case TakeRequest(a, p, c) => IsLive(s.peers, a) && (p, c) in s.peers.states[a].live.inflightRequests
    case ChunkArrived(a, p, c) => p < PieceTotal(cfg) && c < |s.tracker.chunks[p]|
    case VerifyOk(p) => p in s.verifying && p < PieceTotal(cfg)
    case VerifyFailed(p) => p in s.verifying && p < PieceTotal(cfg)
    case VerifyAborted(p) => p in s.verifying && p < PieceTotal(cfg)
    case Credit(a, p) => p in s.crediting && p < PieceTotal(cfg) && p in s.verifier && s.verifier[p] == a
    case _ => true
  }

  ghost function Next(cfg: Config, s: State, e: Event): (s': State)
    requires StartOk(cfg) && Shaped(s.tracker, PieceTotal(cfg)) && Enabled(cfg, s, e)
    ensures Shaped(s'.tracker, PieceTotal(cfg))
  {
    match e
    case PeerAdded(a) => s.(peers := AddIfNotSeen(s.peers, a))
    case PeerConnecting(a) => s.(peers := QueuedToConnecting(s.peers, a))
    case PeerHandshake(a) => s.(peers := ConnectingToLive(s.peers, a))
    case PeerIncoming(a) => s.(peers := IncomingConnection(s.peers, a))
    case PeerRequeued(a) => s.(peers := DeadToQueued(s.peers, a))
    // The counters of a peer go with it.
    case PeerDropped(a) => s.(peers := DropPeer(s.peers, a), measured := s.measured - {a})
    case PeerNotNeeded(a) => s.(peers := SetNotNeeded(s.peers, a))
    case PeerUpdated(a, interested, bitfield) =>
      s.(peers := UpdateLive(s.peers, a, s.peers.states[a].live.(peerInterested := interested, bitfield := bitfield)))
    case Reserve(a, p) =>
      s.(inflight := s.inflight[p := a], tracker := ReserveNeeded(s.tracker, p),
         reserved := s.reserved + {p}, given := s.given + {(a, p)})
    case Steal(a, p) => s.(inflight := s.inflight[p := a], given := s.given + {(a, p)})
    case AddRequest(a, p, c) =>
      var live := s.peers.states[a].live;
      s.(peers := UpdateLive(s.peers, a, live.(inflightRequests := live.inflightRequests + {(p, c)})))
    case TakeRequest(a, p, c) =>
      var live := s.peers.states[a].live;
      s.(peers := UpdateLive(s.peers, a, live.(inflightRequests := live.inflightRequests - {(p, c)})),
         took := s.took + {(a, p, c)})
    case ChunkArrived(a, p, c) =>
      // Only the peer the piece is in flight with may complete it, and nobody can when the
      // bitfield lacks its range: the handler panics.
      if p !in s.inflight || s.inflight[p] != a || !HasRange(cfg.lengths, p) then s
      else
        var (t, r) := MarkChunk(s.tracker, p, c);
        if r == Completed then
          s.(tracker := t, inflight := s.inflight - {p},
             verifying := s.verifying + multiset{p}, verifier := s.verifier[p := a])
        else s.(tracker := t)
    case VerifyOk(p) =>
      s.(tracker := MarkDownloaded(s.tracker, p),
         verifying := s.verifying - multiset{p}, crediting := s.crediting + multiset{p})
    case VerifyFailed(p) =>
      s.(tracker := MarkBroken(s.tracker, p), verifying := s.verifying - multiset{p})
    case VerifyAborted(p) =>
      s.(verifying := s.verifying - multiset{p}, lost := s.lost + {p})
    case Credit(a, p) =>
      s.(downloaded := s.downloaded + PieceLength(cfg.lengths, p), crediting := s.crediting - multiset{p},
         measured := if a in s.peers.states then s.measured + {a} else s.measured)
    case Died(a, hadError) =>
      var peers := PeerDied(s.peers, a, hadError, IsFinished(cfg, s));
      s.(tracker := AfterDeath(cfg, s, a), peers := peers,
         measured := if a in peers.states then s.measured else s.measured - {a},
         given := (set g | g in s.given && g.0 != a),
         took := (set g | g in s.took && g.0 != a))
  }

  // Only a live peer has requests to cancel.
  ghost function AfterDeath(cfg: Config, s: State, a: Addr): (t: Tracker)
    requires StartOk(cfg) && Shaped(s.tracker, PieceTotal(cfg))
    ensures Shaped(t, PieceTotal(cfg))
  {
    if IsLive(s.peers, a) then CancelAll(cfg.lengths, s.tracker, s.peers.states[a].live.inflightRequests) else s.tracker
  }

  // The state after a run from the start, if every event of the run was enabled.
  ghost function Run(cfg: Config, events: seq<Event>): (r: Option<State>)
    requires StartOk(cfg)
    ensures r.Some? ==> Shaped(r.value.tracker, PieceTotal(cfg))
  {
    if events == [] then Some(Initial(cfg))
    else
      var before := Run(cfg, events[..|events| - 1]);
      var e := events[|events| - 1];
      if before.None? || !Enabled(cfg, before.value, e) then None
      else Some(Next(cfg, before.value, e))
  }

  // ---- the invariant ------------------------------------------------------------------

  ghost predicate PieceInv(cfg: Config, s: State, p: nat)
    requires StartOk(cfg) && p < PieceTotal(cfg) && Shaped(s.tracker, PieceTotal(cfg))
  {
    var initiallyNeeded := cfg.start.needed[p];
    && |s.tracker.chunks[p]| == |cfg.start.chunks[p]|
    && s.verifying[p] <= 1 && s.crediting[p] <= 1
    && (All(s.tracker.chunks[p]) <==> s.tracker.have[p] || s.verifying[p] == 1 || p in s.lost || !initiallyNeeded)
    && (s.tracker.have[p] ==> s.verifying[p] == 0 && p !in s.lost)
    && (s.verifying[p] == 1 ==> p !in s.lost)
    && (s.crediting[p] == 1 ==> s.tracker.have[p] && !cfg.start.have[p])
    && (cfg.start.have[p] ==> s.tracker.have[p])
    && (initiallyNeeded ==>
          s.tracker.have[p] || s.tracker.needed[p] || p in s.inflight || s.verifying[p] == 1 || p in s.lost)
    && (p in s.inflight ==> p in s.reserved)
    && (!initiallyNeeded ==>
          && !s.tracker.needed[p] && p !in s.reserved && s.verifying[p] == 0 && p !in s.lost
          && s.tracker.have[p] == cfg.start.have[p])
  }

  ghost predicate RequestsReserved(cfg: Config, s: State)
    requires Shaped(s.tracker, PieceTotal(cfg))
  {
    forall a, r :: IsLive(s.peers, a) && r in s.peers.states[a].live.inflightRequests ==> r.0 in s.reserved
  }

  // Pieces that entered `have` during the session and whose bytes were counted.
  ghost function Credited(cfg: Config, s: State): seq<bool>
    requires StartOk(cfg) && Shaped(s.tracker, PieceTotal(cfg))
  {
    seq(PieceTotal(cfg), p requires 0 <= p < PieceTotal(cfg) =>
      s.tracker.have[p] && !cfg.start.have[p] && s.crediting[p] == 0)
  }

  ghost predicate Inv(cfg: Config, s: State)
    requires StartOk(cfg)
  {
    && Shaped(s.tracker, PieceTotal(cfg))
    && (forall p: nat :: p < PieceTotal(cfg) ==> PieceInv(cfg, s, p))
    && (forall p :: p in s.reserved || p in s.inflight || p in s.lost || p in s.verifying || p in s.crediting ==>
        p < PieceTotal(cfg))
    && RequestsReserved(cfg, s)
    && CountersMatch(s.peers)
    && s.downloaded == BytesOf(cfg.lengths, Credited(cfg, s))
  }

  lemma InitialInv(cfg: Config)
    requires StartOk(cfg)
    ensures Inv(cfg, Initial(cfg))
  {
    var s := Initial(cfg);
    BytesOfNone(cfg.lengths, Credited(cfg, s));
    forall k: Kind ensures s.peers.stats.Get(k) == |PeersIn(s.peers.states, k)| {
      assert PeersIn(s.peers.states, k) == {};
    }
  }

  // ---- every event keeps the invariant -------------------------------------------------

  predicate IsTableEvent(e: Event) {
    e.PeerAdded? || e.PeerConnecting? || e.PeerHandshake? || e.PeerIncoming? || e.PeerRequeued?
    || e.PeerDropped? || e.PeerNotNeeded? || e.PeerUpdated? || e.AddRequest? || e.TakeRequest?
  }

  // A live peer's requests are old ones, new ones for a reserved piece, or none.
  lemma TableEventKeepsInv(cfg: Config, s: State, e: Event)
    requires StartOk(cfg) && Inv(cfg, s) && Enabled(cfg, s, e) && IsTableEvent(e)
    ensures Inv(cfg, Next(cfg, s, e))
  {
    TableEventKeepsRest(cfg, s, e);
    TableEventKeepsCounters(cfg, s, e);
    TableEventKeepsRequests(cfg, s, e);
    hide Next, CountersMatch, RequestsReserved;
    var s' := Next(cfg, s, e);
    assert Credited(cfg, s') == Credited(cfg, s);
    forall p: nat | p < PieceTotal(cfg) ensures PieceInv(cfg, s', p) { assert PieceInv(cfg, s, p); }
  }

  lemma TableEventKeepsRest(cfg: Config, s: State, e: Event)
    requires StartOk(cfg) && Shaped(s.tracker, PieceTotal(cfg)) && Enabled(cfg, s, e) && IsTableEvent(e)
    ensures var s' := Next(cfg, s, e); s' == s.(peers := s'.peers, took := s'.took, measured := s'.measured)
  {
  }

  lemma TableEventKeepsCounters(cfg: Config, s: State, e: Event)
    requires StartOk(cfg) && Shaped(s.tracker, PieceTotal(cfg)) && Enabled(cfg, s, e) && IsTableEvent(e)
    requires CountersMatch(s.peers)
    ensures CountersMatch(Next(cfg, s, e).peers)
  {
    hide CountersMatch;
    OperationsKeepCounters(s.peers, e.a, false, false);
    if e.PeerUpdated? || e.AddRequest? || e.TakeRequest? {
      UpdateLiveCounts(s.peers, e.a, Next(cfg, s, e).peers.states[e.a].live);
    }
  }

  lemma TableEventKeepsRequests(cfg: Config, s: State, e: Event)
    requires StartOk(cfg) && Shaped(s.tracker, PieceTotal(cfg)) && Enabled(cfg, s, e) && IsTableEvent(e)
    requires RequestsReserved(cfg, s)
    ensures RequestsReserved(cfg, Next(cfg, s, e))
  {
  }

  lemma ReserveKeepsInv(cfg: Config, s: State, a: Addr, p: nat)
    requires StartOk(cfg) && Inv(cfg, s) && Enabled(cfg, s, Reserve(a, p))
    ensures Inv(cfg, Next(cfg, s, Reserve(a, p)))
  {
    var s' := Next(cfg, s, Reserve(a, p));
    assert Credited(cfg, s') == Credited(cfg, s);
    forall q: nat | q < PieceTotal(cfg) ensures PieceInv(cfg, s', q) { assert PieceInv(cfg, s, q); }
  }

  lemma StealKeepsInv(cfg: Config, s: State, a: Addr, p: nat)
    requires StartOk(cfg) && Inv(cfg, s) && Enabled(cfg, s, Steal(a, p))
    ensures Inv(cfg, Next(cfg, s, Steal(a, p)))
  {
    var s' := Next(cfg, s, Steal(a, p));
    assert Credited(cfg, s') == Credited(cfg, s);
    forall q: nat | q < PieceTotal(cfg) ensures PieceInv(cfg, s', q) { assert PieceInv(cfg, s, q); }
  }

  lemma ChunkKeepsInv(cfg: Config, s: State, a: Addr, p: nat, c: nat)
    requires StartOk(cfg) && Inv(cfg, s) && Enabled(cfg, s, ChunkArrived(a, p, c))
    ensures Inv(cfg, Next(cfg, s, ChunkArrived(a, p, c)))
  {
    var s' := Next(cfg, s, ChunkArrived(a, p, c));
    assert Credited(cfg, s') == Credited(cfg, s);
    forall q: nat | q < PieceTotal(cfg) ensures PieceInv(cfg, s', q) { assert PieceInv(cfg, s, q); }
  }

  lemma VerifyOkKeepsInv(cfg: Config, s: State, p: nat)
    requires StartOk(cfg) && Inv(cfg, s) && Enabled(cfg, s, VerifyOk(p))
    ensures Inv(cfg, Next(cfg, s, VerifyOk(p)))
  {
    var s' := Next(cfg, s, VerifyOk(p));
    assert PieceInv(cfg, s, p);
    assert Credited(cfg, s') == Credited(cfg, s);
    forall q: nat | q < PieceTotal(cfg) ensures PieceInv(cfg, s', q) { assert PieceInv(cfg, s, q); }
  }

  lemma VerifyFailedKeepsInv(cfg: Config, s: State, p: nat)
    requires StartOk(cfg) && Inv(cfg, s) && Enabled(cfg, s, VerifyFailed(p))
    ensures Inv(cfg, Next(cfg, s, VerifyFailed(p)))
  {
    var s' := Next(cfg, s, VerifyFailed(p));
    assert PieceInv(cfg, s, p);
    assert Credited(cfg, s') == Credited(cfg, s);
    assert !s'.tracker.chunks[p][0];
    forall q: nat | q < PieceTotal(cfg) ensures PieceInv(cfg, s', q) { assert PieceInv(cfg, s, q); }
  }

  lemma VerifyAbortedKeepsInv(cfg: Config, s: State, p: nat)
    requires StartOk(cfg) && Inv(cfg, s) && Enabled(cfg, s, VerifyAborted(p))
    ensures Inv(cfg, Next(cfg, s, VerifyAborted(p)))
  {
    var s' := Next(cfg, s, VerifyAborted(p));
    assert PieceInv(cfg, s, p);
    assert Credited(cfg, s') == Credited(cfg, s);
    forall q: nat | q < PieceTotal(cfg) ensures PieceInv(cfg, s', q) { assert PieceInv(cfg, s, q); }
  }

  lemma CreditKeepsInv(cfg: Config, s: State, a: Addr, p: nat)
    requires StartOk(cfg) && Inv(cfg, s) && Enabled(cfg, s, Credit(a, p))
    ensures Inv(cfg, Next(cfg, s, Credit(a, p)))
  {
    var s' := Next(cfg, s, Credit(a, p));
    assert PieceInv(cfg, s, p);
    assert Credited(cfg, s') == Credited(cfg, s)[p := true];
    SetBitAddsPiece(cfg.lengths, Credited(cfg, s), p);
    forall q: nat | q < PieceTotal(cfg) ensures PieceInv(cfg, s', q) { assert PieceInv(cfg, s, q); }
  }

  lemma DiedKeepsInv(cfg: Config, s: State, a: Addr, hadError: bool)
    requires StartOk(cfg) && Inv(cfg, s) && Enabled(cfg, s, Died(a, hadError))
    ensures Inv(cfg, Next(cfg, s, Died(a, hadError)))
  {
    var s' := Next(cfg, s, Died(a, hadError));
    OperationsKeepCounters(s.peers, a, hadError, IsFinished(cfg, s));
    assert Credited(cfg, s') == Credited(cfg, s);
    forall q: nat | q < PieceTotal(cfg) ensures PieceInv(cfg, s', q) { assert PieceInv(cfg, s, q); }
  }

  lemma StepKeepsInv(cfg: Config, s: State, e: Event)
    requires StartOk(cfg) && Inv(cfg, s) && Enabled(cfg, s, e)
    ensures Inv(cfg, Next(cfg, s, e))
  {
    match e
    case Reserve(a, p) => ReserveKeepsInv(cfg, s, a, p);
    case Steal(a, p) => StealKeepsInv(cfg, s, a, p);
    case ChunkArrived(a, p, c) => ChunkKeepsInv(cfg, s, a, p, c);
    case VerifyOk(p) => VerifyOkKeepsInv(cfg, s, p);
    case VerifyFailed(p) => VerifyFailedKeepsInv(cfg, s, p);
    case VerifyAborted(p) => VerifyAbortedKeepsInv(cfg, s, p);
    case Credit(a, p) => CreditKeepsInv(cfg, s, a, p);
    case Died(a, hadError) => DiedKeepsInv(cfg, s, a, hadError);
    case _ => TableEventKeepsInv(cfg, s, e);
  }

  lemma {:induction false} RunKeepsInv(cfg: Config, events: seq<Event>, s: State)
    requires StartOk(cfg) && Run(cfg, events) == Some(s)
    ensures Inv(cfg, s)
  {
    if events == [] {
      InitialInv(cfg);
    } else {
      var n := |events| - 1;
      var before := Run(cfg, events[..n]).value;
      RunKeepsInv(cfg, events[..n], before);
      StepKeepsInv(cfg, before, events[n]);
    }
  }

  // ---- what holds after every run -----------------------------------------------------

  // Whatever the interleaving, every initially needed piece is somewhere: we have it,
  // it is needed, some peer holds it in flight, it is under verification, or its
  // verifier was stopped by an I/O error. No piece ever has two verifiers, and its
  // chunk bits are all set exactly when it left the download.
  lemma PiecesAreAccountedFor(cfg: Config, events: seq<Event>, s: State, p: nat)
    requires StartOk(cfg) && Run(cfg, events) == Some(s) && p < PieceTotal(cfg) && cfg.start.needed[p]
    ensures && (s.tracker.have[p] || s.tracker.needed[p] || p in s.inflight || p in s.verifying || p in s.lost)
            && s.verifying[p] <= 1
            && (All(s.tracker.chunks[p]) <==> s.tracker.have[p] || p in s.verifying || p in s.lost)
            && !(s.tracker.have[p] && p in s.verifying) && !(s.tracker.have[p] && p in s.lost)
  {
    RunKeepsInv(cfg, events, s);
    assert PieceInv(cfg, s, p);
  }

  // A piece that was not needed at the start is never requested, rewritten or credited.
  lemma OtherPiecesAreUntouched(cfg: Config, events: seq<Event>, s: State, p: nat)
    requires StartOk(cfg) && Run(cfg, events) == Some(s) && p < PieceTotal(cfg) && !cfg.start.needed[p]
    ensures && p !in s.inflight && p !in s.verifying && p !in s.crediting && !s.tracker.needed[p]
            && s.tracker.have[p] == cfg.start.have[p] && All(s.tracker.chunks[p])
            && forall a :: IsLive(s.peers, a) ==> !HasRequest(s.peers.states[a].live.inflightRequests, p)
  {
    RunKeepsInv(cfg, events, s);
    assert PieceInv(cfg, s, p);
  }

  ghost function Gained(cfg: Config, s: State): seq<bool>
    requires StartOk(cfg) && Shaped(s.tracker, PieceTotal(cfg))
  {
    seq(PieceTotal(cfg), p requires 0 <= p < PieceTotal(cfg) => s.tracker.have[p] && !cfg.start.have[p])
  }

  ghost function Pending(cfg: Config, s: State): seq<bool>
    requires StartOk(cfg) && Shaped(s.tracker, PieceTotal(cfg))
  {
    seq(PieceTotal(cfg), p requires 0 <= p < PieceTotal(cfg) => s.crediting[p] > 0)
  }

  lemma CreditedWasNeeded(cfg: Config, s: State)
    requires StartOk(cfg) && Inv(cfg, s)
    ensures BytesOf(cfg.lengths, Credited(cfg, s)) <= InitiallyNeededBytes(cfg)
    ensures BytesOf(cfg.lengths, Credited(cfg, s)) == InitiallyNeededBytes(cfg) <==>
              Credited(cfg, s) == cfg.start.needed
  {
    var credited := Credited(cfg, s);
    forall p | 0 <= p < |credited| && credited[p] ensures cfg.start.needed[p] { assert PieceInv(cfg, s, p); }
    BytesMonotone(cfg.lengths, credited, cfg.start.needed);
  }

  lemma GainedSplits(cfg: Config, s: State)
    requires StartOk(cfg) && Inv(cfg, s)
    ensures BytesOf(cfg.lengths, Credited(cfg, s)) + BytesOf(cfg.lengths, Pending(cfg, s)) ==
              BytesOf(cfg.lengths, Gained(cfg, s))
  {
    var credited, pending, gained := Credited(cfg, s), Pending(cfg, s), Gained(cfg, s);
    forall p | 0 <= p < |gained| ensures !(credited[p] && pending[p]) && gained[p] == (credited[p] || pending[p]) {
      assert PieceInv(cfg, s, p);
    }
    BytesOfDisjoint(cfg.lengths, credited, pending, gained);
  }

  // Byte conservation: the counter plus the bytes about to be credited is exactly the
  // length of the pieces that entered `have` since the start, so no piece is credited
  // twice, and `initially_needed - downloaded` never underflows.
  lemma BytesAreConserved(cfg: Config, events: seq<Event>, s: State)
    requires StartOk(cfg) && Run(cfg, events) == Some(s)
    ensures s.downloaded + BytesOf(cfg.lengths, Pending(cfg, s)) == BytesOf(cfg.lengths, Gained(cfg, s))
    ensures s.downloaded <= InitiallyNeededBytes(cfg)
    ensures forall p :: s.crediting[p] <= 1
  {
    RunKeepsInv(cfg, events, s);
    GainedSplits(cfg, s);
    CreditedWasNeeded(cfg, s);
    forall p ensures s.crediting[p] <= 1 {
      if p in s.crediting { assert PieceInv(cfg, s, p); }
    }
  }

  // Every initially needed piece is in `have`, none was in it at the start, and no
  // credit is outstanding.
  ghost predicate AllGained(cfg: Config, s: State)
    requires StartOk(cfg) && Shaped(s.tracker, PieceTotal(cfg))
  {
    forall p: nat :: p < PieceTotal(cfg) && cfg.start.needed[p] ==>
      s.tracker.have[p] && !cfg.start.have[p] && p !in s.crediting
  }

  lemma CreditedIsNeededIff(cfg: Config, s: State)
    requires StartOk(cfg) && Inv(cfg, s)
    ensures Credited(cfg, s) == cfg.start.needed <==> AllGained(cfg, s)
  {
    var credited := Credited(cfg, s);
    if credited == cfg.start.needed {
      forall p: nat | p < PieceTotal(cfg) && cfg.start.needed[p]
        ensures s.tracker.have[p] && !cfg.start.have[p] && p !in s.crediting
      {
        assert credited[p];
      }
    }
    if AllGained(cfg, s) {
      forall p | 0 <= p < |credited| ensures credited[p] == cfg.start.needed[p] { assert PieceInv(cfg, s, p); }
    }
  }

  // `is_finished` says exactly that, so a session started with a needed piece we
  // already have can never finish.
  lemma FinishedIff(cfg: Config, events: seq<Event>, s: State)
    requires StartOk(cfg) && Run(cfg, events) == Some(s)
    ensures IsFinished(cfg, s) <==> AllGained(cfg, s)
  {
    RunKeepsInv(cfg, events, s);
    CreditedWasNeeded(cfg, s);
    CreditedIsNeededIff(cfg, s);
  }

  // No event takes a piece out of `have`.
  lemma StepKeepsHave(cfg: Config, s: State, e: Event, p: nat)
    requires StartOk(cfg) && Shaped(s.tracker, PieceTotal(cfg)) && Enabled(cfg, s, e)
    requires p < PieceTotal(cfg) && s.tracker.have[p]
    ensures p < |Next(cfg, s, e).tracker.have| && Next(cfg, s, e).tracker.have[p]
  {
  }

  lemma {:induction false} HaveOnlyGrows(cfg: Config, events: seq<Event>, k: nat, before: State, after: State, p: nat)
    requires StartOk(cfg) && k <= |events| && Run(cfg, events[..k]) == Some(before) && Run(cfg, events) == Some(after)
    requires p < PieceTotal(cfg) && before.tracker.have[p]
    ensures after.tracker.have[p]
  {
    if k == |events| {
      assert events[..k] == events;
    } else {
      var n := |events| - 1;
      var s := Run(cfg, events[..n]).value;
      assert events[..n][..k] == events[..k];
      HaveOnlyGrows(cfg, events[..n], k, before, s, p);
      StepKeepsHave(cfg, s, events[n], p);
    }
  }

  // A piece that fails its check is needed again with no chunk of it set, has no verifier
  // any more, and may be handed out anew. Nothing else changes.
  lemma FailedPieceStartsOver(cfg: Config, s: State, p: nat)
    requires StartOk(cfg) && Inv(cfg, s) && Enabled(cfg, s, VerifyFailed(p))
    ensures var s' := Next(cfg, s, VerifyFailed(p));
            && s'.tracker.needed == s.tracker.needed[p := true] && s'.tracker.have == s.tracker.have
            && !s'.tracker.have[p]
            && (forall c :: 0 <= c < |s'.tracker.chunks[p]| ==> !s'.tracker.chunks[p][c])
            && (forall q: nat :: q < PieceTotal(cfg) && q != p ==> s'.tracker.chunks[q] == s.tracker.chunks[q])
            && s'.verifying == s.verifying - multiset{p} && p !in s'.verifying
            && s' == s.(tracker := s'.tracker, verifying := s'.verifying)
  {
    assert PieceInv(cfg, s, p);
  }

  // A peer that dies in a run is live again after it was queued again, connected to and
  // greeted, if and only if it was live or connecting, died with an error, and a piece that
  // was needed at the start was not yet gained then.
  lemma DeadPeerComesBackIff(cfg: Config, events: seq<Event>, s: State, a: Addr, hadError: bool)
    requires StartOk(cfg) && Run(cfg, events) == Some(s) && a in s.peers.states
    ensures var later := Run(cfg, events + [Died(a, hadError)] + [PeerRequeued(a)] + [PeerConnecting(a)]
                                  + [PeerHandshake(a)]);
            && later.Some?
            && (IsLive(later.value.peers, a) <==>
                && (s.peers.states[a].Live? || s.peers.states[a].Connecting?) && hadError
                && exists p: nat :: p < PieceTotal(cfg) && cfg.start.needed[p]
                                    && (!s.tracker.have[p] || cfg.start.have[p] || p in s.crediting))
  {
    hide Next, IsFinished, StartOk, IsLive;
    var e1, e2, e3, e4 := Died(a, hadError), PeerRequeued(a), PeerConnecting(a), PeerHandshake(a);
    RunSnoc(cfg, events, e1);
    RunSnoc(cfg, events + [e1], e2);
    RunSnoc(cfg, events + [e1] + [e2], e3);
    RunSnoc(cfg, events + [e1] + [e2] + [e3], e4);
    Reconnected(cfg, s, a, hadError);
    FinishedIff(cfg, events, s);
  }

  lemma Reconnected(cfg: Config, s: State, a: Addr, hadError: bool)
    requires StartOk(cfg) && Shaped(s.tracker, PieceTotal(cfg)) && a in s.peers.states
    ensures var s1 := Next(cfg, s, Died(a, hadError));
            var s2 := Next(cfg, s1, PeerRequeued(a));
            var s3 := Next(cfg, s2, PeerConnecting(a));
            IsLive(Next(cfg, s3, PeerHandshake(a)).peers, a) <==>
            (s.peers.states[a].Live? || s.peers.states[a].Connecting?) && hadError && !IsFinished(cfg, s)
  {
    hide IsFinished, AfterDeath, StartOk;
  }

  lemma RunSnoc(cfg: Config, events: seq<Event>, e: Event)
    requires StartOk(cfg) && Run(cfg, events).Some? && Enabled(cfg, Run(cfg, events).value, e)
    ensures Run(cfg, events + [e]) == Some(Next(cfg, Run(cfg, events).value, e))
  {
    assert (events + [e])[..|events|] == events;
  }

  // ---- pausing ------------------------------------------------------------------------

  // `pause` marks every in-flight piece broken unless we have it, in any order.
  ghost function PauseTracker(t: Tracker, inflight: set<nat>): (r: Tracker)
    requires |t.needed| == |t.chunks| == |t.have|
    ensures |r.needed| == |r.chunks| == |r.have| == |t.have|
  {
    var n := |t.needed|;
    t.(needed := seq(n, p requires 0 <= p < n => t.needed[p] || (p in inflight && !t.have[p])),
       chunks := seq(n, p requires 0 <= p < n =>
                       if p in inflight && !t.have[p] then NoneSet(|t.chunks[p]|) else t.chunks[p]))
  }

  // A piece in flight that we do not have is needed after a pause, with no chunk of it set;
  // every other piece is as it was.
  lemma PausedPiecesStartOver(t: Tracker, inflight: set<nat>)
    requires |t.needed| == |t.chunks| == |t.have|
    ensures var t' := PauseTracker(t, inflight);
            && t'.have == t.have
            && forall p: nat :: p < |t.have| ==>
                 && |t'.chunks[p]| == |t.chunks[p]|
                 && (p in inflight && !t.have[p] ==>
                     t'.needed[p] && forall c :: 0 <= c < |t'.chunks[p]| ==> !t'.chunks[p][c])
                 && (p !in inflight || t.have[p] ==>
                     t'.needed[p] == t.needed[p] && t'.chunks[p] == t.chunks[p])
  {
  }

  lemma BreakOneMore(t: Tracker, done: set<nat>, p: nat)
    requires |t.needed| == |t.chunks| == |t.have| && p < |t.needed| && p !in done
    ensures PauseTracker(t, done + {p}) == MarkBroken(PauseTracker(t, done), p)
  {
    var after, one := PauseTracker(t, done + {p}), MarkBroken(PauseTracker(t, done), p);
    assert after.needed == one.needed;
    assert after.chunks == one.chunks;
  }

  // A paused torrent is a valid start for the next live session, whatever was going on.
  // Its stuck pieces are exactly those that were needed again while their verifier was
  // running or had been stopped, and that nobody had in flight.
  lemma PausedTorrentCanStart(cfg: Config, events: seq<Event>, s: State)
    requires StartOk(cfg) && Run(cfg, events) == Some(s)
    ensures StartOk(cfg.(start := PauseTracker(s.tracker, s.inflight.Keys)))
    ensures forall p: nat :: p in Stuck(PauseTracker(s.tracker, s.inflight.Keys)) <==>
              (p in s.verifying || p in s.lost) && p < PieceTotal(cfg) && s.tracker.needed[p] && p !in s.inflight
  {
    RunKeepsInv(cfg, events, s);
    var t := PauseTracker(s.tracker, s.inflight.Keys);
    forall p: nat | p < PieceTotal(cfg)
      ensures |t.chunks[p]| > 0 && (t.have[p] || !t.needed[p] ==> All(t.chunks[p]))
      ensures t.needed[p] && !t.have[p] && All(t.chunks[p]) <==>
              (p in s.verifying || p in s.lost) && s.tracker.needed[p] && p !in s.inflight
    {
      PausedPiece(cfg, s, p);
    }
  }

  lemma PausedPiece(cfg: Config, s: State, p: nat)
    requires StartOk(cfg) && Inv(cfg, s) && p < PieceTotal(cfg)
    ensures var t := PauseTracker(s.tracker, s.inflight.Keys);
            && |t.chunks[p]| > 0
            && (t.have[p] || !t.needed[p] ==> All(t.chunks[p]))
            && (t.needed[p] && !t.have[p] && All(t.chunks[p]) <==>
                (p in s.verifying || p in s.lost) && s.tracker.needed[p] && p !in s.inflight)
  {
    var t := PauseTracker(s.tracker, s.inflight.Keys);
    assert PieceInv(cfg, s, p);
    if p in s.inflight && !s.tracker.have[p] {
      assert !t.chunks[p][0];
    } else {
      assert t.chunks[p] == s.tracker.chunks[p];
    }
  }

  // Pausing keeps every initially needed piece in `have` or `needed`, except exactly
  // those whose verifier was running or had been stopped and which nobody needed or
  // had in flight again; those the next session will never download.
  lemma PauseLosesOnly(cfg: Config, events: seq<Event>, s: State, p: nat)
    requires StartOk(cfg) && Run(cfg, events) == Some(s) && p < PieceTotal(cfg) && cfg.start.needed[p]
    ensures var t := PauseTracker(s.tracker, s.inflight.Keys);
            && (!t.have[p] && !t.needed[p] <==>
                (p in s.verifying || p in s.lost) && !s.tracker.needed[p] && p !in s.inflight)
            && t.have[p] == s.tracker.have[p]
  {
    RunKeepsInv(cfg, events, s);
    assert PieceInv(cfg, s, p);
  }

  ghost function Missing(cfg: Config, s: State): seq<bool>
    requires StartOk(cfg) && Shaped(s.tracker, PieceTotal(cfg))
  {
    seq(PieceTotal(cfg), p requires 0 <= p < PieceTotal(cfg) => cfg.start.needed[p] && !s.tracker.have[p])
  }

  // With no verifier running or stopped, pausing loses nothing: every piece we lack is
  // needed and has a chunk to fetch, and the needed bytes are at least the missing
  // bytes, equal exactly when no needed piece is one we have.
  lemma PauseLosesNothing(cfg: Config, events: seq<Event>, s: State)
    requires StartOk(cfg) && Run(cfg, events) == Some(s)
    requires s.verifying == multiset{} && s.lost == {}
    ensures var t := PauseTracker(s.tracker, s.inflight.Keys);
            && (forall p: nat :: p < PieceTotal(cfg) && cfg.start.needed[p] ==> t.have[p] || t.needed[p])
            && (forall p: nat :: p < PieceTotal(cfg) && t.needed[p] && !t.have[p] ==> !All(t.chunks[p]))
            && BytesOf(cfg.lengths, t.needed) >= BytesOf(cfg.lengths, Missing(cfg, s))
            && (BytesOf(cfg.lengths, t.needed) == BytesOf(cfg.lengths, Missing(cfg, s)) <==>
                forall p: nat :: p < PieceTotal(cfg) ==> !(t.needed[p] && t.have[p]))
  {
    RunKeepsInv(cfg, events, s);
    PausedTorrentCanStart(cfg, events, s);
    var t := PauseTracker(s.tracker, s.inflight.Keys);
    forall p: nat | p < PieceTotal(cfg)
      ensures Missing(cfg, s)[p] == (t.needed[p] && !t.have[p])
      ensures cfg.start.needed[p] ==> t.have[p] || t.needed[p]
    {
      assert PieceInv(cfg, s, p);
    }
    BytesMonotone(cfg.lengths, Missing(cfg, s), t.needed);
    if Missing(cfg, s) == t.needed {
      forall p: nat | p < PieceTotal(cfg) ensures !(t.needed[p] && t.have[p]) {
        assert Missing(cfg, s)[p] == t.needed[p];
      }
    }
  }

  // ---- pieces that a pause leaves stuck -------------------------------------------------

  lemma StepKeepsLost(cfg: Config, s: State, e: Event, p: nat)
    requires StartOk(cfg) && Shaped(s.tracker, PieceTotal(cfg)) && Enabled(cfg, s, e)
    requires p in s.lost
    ensures p in Next(cfg, s, e).lost
  {
  }

  lemma {:induction false} StuckStaysLost(cfg: Config, events: seq<Event>, s: State, p: nat)
    requires StartOk(cfg) && Run(cfg, events) == Some(s) && p in Stuck(cfg.start)
    ensures p in s.lost
  {
    if events != [] {
      var n := |events| - 1;
      var before := Run(cfg, events[..n]).value;
      StuckStaysLost(cfg, events[..n], before, p);
      StepKeepsLost(cfg, before, events[n], p);
    }
  }

  // A session that starts with a stuck piece never gets it and never finishes.
  lemma StuckNeverFinishes(cfg: Config, events: seq<Event>, s: State, p: nat)
    requires StartOk(cfg) && Run(cfg, events) == Some(s) && p in Stuck(cfg.start)
    ensures !s.tracker.have[p] && !IsFinished(cfg, s)
  {
    StuckStaysLost(cfg, events, s, p);
    RunKeepsInv(cfg, events, s);
    assert PieceInv(cfg, s, p);
    FinishedIff(cfg, events, s);
  }
}
