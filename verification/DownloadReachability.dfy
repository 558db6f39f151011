// Which states a live session can get to: when it can finish, and what a pause can leave
// behind that the next session never finishes.
module DownloadReachability {
  import opened Wrappers
  import opened Lengths
  import opened Peers
  import opened ChunkTracker
  import opened DownloadProtocol

  // ---- orderly runs ---------------------------------------------------------------------

  // What the handler of one connection does in its own order: it requests chunks of pieces
  // it was given, and looks at a chunk after it arrived on its connection. And no piece
  // fails its check, because `check_piece` does not compare the hash.
  ghost predicate InTurn(s: State, e: Event) {
    match e
    case AddRequest(a, p, _) => (a, p) in s.given
    case ChunkArrived(a, p, c) => (a, p, c) in s.took
    case VerifyFailed(_) => false
    case _ => true
  }

  ghost predicate Orderly(cfg: Config, events: seq<Event>)
    requires StartOk(cfg)
  {
    events == [] ||
    var before, e := events[..|events| - 1], events[|events| - 1];
    Orderly(cfg, before) && (Run(cfg, before).Some? ==> InTurn(Run(cfg, before).value, e))
  }

  ghost predicate Reaches(cfg: Config, events: seq<Event>, s: State)
    requires StartOk(cfg)
  {
    Run(cfg, events) == Some(s) && Orderly(cfg, events)
  }

  lemma ReachedShape(cfg: Config, events: seq<Event>, s: State)
    requires StartOk(cfg) && Reaches(cfg, events, s)
    ensures Shaped(s.tracker, PieceTotal(cfg))
  {
  }

  lemma Do(cfg: Config, events: seq<Event>, s: State, e: Event) returns (events': seq<Event>, s': State)
    requires StartOk(cfg) && Reaches(cfg, events, s) && Enabled(cfg, s, e) && InTurn(s, e)
    ensures s' == Next(cfg, s, e) && Reaches(cfg, events', s') && events' == events + [e]
  {
    hide Next, Enabled, InTurn;
    events', s' := events + [e], Next(cfg, s, e);
    assert events'[..|events|] == events;
  }

  // A run goes on without any connection ending.
  ghost predicate Peaceful(events: seq<Event>, events': seq<Event>) {
    events <= events' && forall i :: |events| <= i < |events'| ==> !events'[i].Died?
  }

  lemma PeacefulTwice(a: seq<Event>, b: seq<Event>, c: seq<Event>)
    requires Peaceful(a, b) && Peaceful(b, c)
    ensures Peaceful(a, c)
  {
  }

  // ---- downloading one piece ------------------------------------------------------------

  // What a peer downloading a piece leaves alone: everything about the other peers, and
  // all of the session but that piece's chunks, holder and verifier.
  ghost predicate KeptBy(s: State, s': State, a: Addr) {
    && s'.tracker.needed == s.tracker.needed && s'.tracker.have == s.tracker.have
    && s'.crediting == s.crediting && s'.downloaded == s.downloaded && s'.lost == s.lost
    && s'.reserved == s.reserved && s'.given == s.given && s'.measured == s.measured
    && OthersKept(s, s', a)
  }

  ghost predicate OthersKept(s: State, s': State, a: Addr) {
    && IsLive(s'.peers, a)
    && forall b: Addr :: b != a ==>
         (b in s'.peers.states <==> b in s.peers.states)
         && (b in s.peers.states ==> s'.peers.states[b] == s.peers.states[b])
  }

  // A live peer holds a piece that is not complete and can be completed.
  ghost predicate Holds(cfg: Config, s: State, a: Addr, p: nat)
    requires StartOk(cfg)
  {
    && Shaped(s.tracker, PieceTotal(cfg))
    && IsLive(s.peers, a) && p < PieceTotal(cfg) && HasRange(cfg.lengths, p)
    && p in s.inflight && s.inflight[p] == a && p in s.reserved && (a, p) in s.given
    && !All(s.tracker.chunks[p])
  }

  // One chunk, requested, arrived and marked.
  lemma OneChunk(cfg: Config, events: seq<Event>, s: State, a: Addr, p: nat, c: nat)
    returns (events': seq<Event>, s': State)
    requires StartOk(cfg) && Reaches(cfg, events, s) && Holds(cfg, s, a, p) && c < |s.tracker.chunks[p]|
    ensures Reaches(cfg, events', s') && KeptBy(s, s', a) && Peaceful(events, events')
    ensures var bits := s.tracker.chunks[p][c := true];
            && s'.tracker.chunks == s.tracker.chunks[p := bits]
            && s'.inflight == (if All(bits) then s.inflight - {p} else s.inflight)
            && s'.verifying == (if All(bits) then s.verifying + multiset{p} else s.verifying)
            && s'.verifier == (if All(bits) then s.verifier[p := a] else s.verifier)
  {
    hide HasRange, All, StartOk, Reaches, Peaceful;
    var s1: State, s2: State;
    events', s1 := Do(cfg, events, s, AddRequest(a, p, c));
    events', s2 := Do(cfg, events', s1, TakeRequest(a, p, c));
    events', s' := Do(cfg, events', s2, ChunkArrived(a, p, c));
    ThreeMore(events, AddRequest(a, p, c), TakeRequest(a, p, c), ChunkArrived(a, p, c));
  }

  lemma ThreeMore(events: seq<Event>, e: Event, f: Event, g: Event)
    requires !e.Died? && !f.Died? && !g.Died?
    ensures Peaceful(events, events + [e] + [f]) && Peaceful(events, events + [e] + [f] + [g])
  {
  }

  function AllSet(n: nat): (bits: seq<bool>)
    ensures |bits| == n && All(bits)
  {
    seq(n, i => true)
  }

  lemma SomeLeft(bits: seq<bool>, c: nat)
    requires c <= |bits| && !All(bits) && forall k :: 0 <= k < c ==> bits[k]
    ensures c < |bits|
  {
  }

  // The chunks in order, from c on, until the piece is complete.
  lemma {:induction false} FillPiece(cfg: Config, events: seq<Event>, s: State, a: Addr, p: nat, c: nat)
    returns (events': seq<Event>, s': State)
    requires StartOk(cfg) && Reaches(cfg, events, s) && Holds(cfg, s, a, p)
    requires c <= |s.tracker.chunks[p]| && forall k :: 0 <= k < c ==> s.tracker.chunks[p][k]
    ensures Reaches(cfg, events', s') && KeptBy(s, s', a) && Peaceful(events, events')
    ensures s'.tracker.chunks == s.tracker.chunks[p := AllSet(|s.tracker.chunks[p]|)]
    ensures s'.inflight == s.inflight - {p} && s'.verifier == s.verifier[p := a]
    ensures s'.verifying == s.verifying + multiset{p}
    decreases |s.tracker.chunks[p]| - c
  {
    hide HasRange, Reaches, StartOk, Run, Peaceful;
    SomeLeft(s.tracker.chunks[p], c);
    var bits := s.tracker.chunks[p][c := true];
    events', s' := OneChunk(cfg, events, s, a, p, c);
    if All(bits) {
      assert bits == AllSet(|bits|);
    } else {
      var was, done := s'.tracker.chunks, events';
      events', s' := FillPiece(cfg, events', s', a, p, c + 1);
      PeacefulTwice(events, done, events');
      assert was[p := AllSet(|bits|)] == s.tracker.chunks[p := AllSet(|bits|)];
    }
  }

  function Just(p: nat): seq<bool> { seq(p + 1, i => i == p) }

  // A peer that has one needed piece and no other takes that one.
  lemma OnlyWanted(needed: seq<bool>, priority: seq<nat>, p: nat)
    requires p < |needed| && needed[p]
    ensures IsNextNeeded(needed, priority, Just(p), Some(p))
  {
    if p in priority {
      var i := FirstIndex(priority, p);
    }
  }

  lemma {:induction false} FirstIndex(s: seq<nat>, p: nat) returns (i: nat)
    requires p in s
    ensures i < |s| && s[i] == p && forall j :: 0 <= j < i ==> s[j] != p
  {
    i := 0;
    while s[i] != p
      invariant i < |s| && p in s[i..] && forall j :: 0 <= j < i ==> s[j] != p
      decreases |s| - i
    {
      i := i + 1;
    }
  }

  // A needed piece that can still be completed.
  ghost predicate Fetchable(cfg: Config, s: State, p: nat)
    requires StartOk(cfg)
  {
    && Shaped(s.tracker, PieceTotal(cfg))
    && p < PieceTotal(cfg) && HasRange(cfg.lengths, p)
    && s.tracker.needed[p] && !All(s.tracker.chunks[p])
  }

  // A live peer is given a needed piece.
  lemma GetPiece(cfg: Config, events: seq<Event>, s: State, a: Addr, p: nat) returns (events': seq<Event>, s': State)
    requires StartOk(cfg) && Reaches(cfg, events, s) && IsLive(s.peers, a) && Fetchable(cfg, s, p)
    ensures Reaches(cfg, events', s') && Holds(cfg, s', a, p) && OthersKept(s, s', a) && Peaceful(events, events')
    ensures s' == s.(peers := s'.peers, tracker := ReserveNeeded(s.tracker, p), inflight := s.inflight[p := a],
                     reserved := s.reserved + {p}, given := s.given + {(a, p)})
  {
    hide HasRange, All, StartOk, Reaches, Just, Peaceful;
    ThreeMore(events, PeerUpdated(a, false, Just(p)), Reserve(a, p), Reserve(a, p));
    var s1: State;
    events', s1 := Do(cfg, events, s, PeerUpdated(a, false, Just(p)));
    OnlyWanted(s.tracker.needed, cfg.priority, p);
    events', s' := Do(cfg, events', s1, Reserve(a, p));
  }

  // A live peer downloads a needed piece from the first request to the last credit.
  lemma DownloadPiece(cfg: Config, events: seq<Event>, s: State, a: Addr, p: nat)
    returns (events': seq<Event>, s': State)
    requires StartOk(cfg) && Reaches(cfg, events, s) && IsLive(s.peers, a) && Fetchable(cfg, s, p)
    ensures Reaches(cfg, events', s') && OthersKept(s, s', a) && Peaceful(events, events')
    ensures s'.tracker == Downloaded(s.tracker, p)
    ensures s'.crediting == s.crediting && a in s'.measured && s'.inflight == s.inflight - {p}
    ensures s'.verifying == s.verifying && s'.lost == s.lost && s'.given == s.given + {(a, p)}
  {
    hide HasRange, All, StartOk, Reaches, Holds, Peaceful;
    var s1: State;
    events', s1 := GetPiece(cfg, events, s, a, p);
    var done := events';
    events', s' := FinishHeld(cfg, events', s1, a, p);
    PeacefulTwice(events, done, events');
  }

  // From holding a piece to its credit.
  lemma FinishHeld(cfg: Config, events: seq<Event>, s: State, a: Addr, p: nat)
    returns (events': seq<Event>, s': State)
    requires StartOk(cfg) && Reaches(cfg, events, s) && Holds(cfg, s, a, p)
    ensures Reaches(cfg, events', s') && OthersKept(s, s', a) && Peaceful(events, events')
    ensures s'.tracker == Tracker(s.tracker.needed, s.tracker.chunks[p := AllSet(|s.tracker.chunks[p]|)],
                                  s.tracker.have[p := true])
    ensures s'.crediting == s.crediting && a in s'.measured && s'.inflight == s.inflight - {p}
    ensures s'.verifying == s.verifying && s'.lost == s.lost && s'.given == s.given
  {
    hide HasRange, All, StartOk, Reaches, Peaceful;
    var full: State;
    events', full := FillPiece(cfg, events, s, a, p, 0);
    var done := events';
    events', s' := CheckAndCredit(cfg, events', full, a, p);
    PeacefulTwice(events, done, events');
    assert s.verifying + multiset{p} - multiset{p} == s.verifying;
  }

  // The verifier of a piece finds it good and credits it.
  lemma CheckAndCredit(cfg: Config, events: seq<Event>, s: State, a: Addr, p: nat)
    returns (events': seq<Event>, s': State)
    requires StartOk(cfg) && Reaches(cfg, events, s) && Shaped(s.tracker, PieceTotal(cfg)) && p < PieceTotal(cfg)
    requires p in s.verifying && p in s.verifier && s.verifier[p] == a
    ensures Reaches(cfg, events', s') && s'.tracker == MarkDownloaded(s.tracker, p) && s'.peers == s.peers
    ensures Peaceful(events, events') && s'.verifying == s.verifying - multiset{p} && s'.lost == s.lost
    ensures s'.given == s.given
    ensures s'.crediting == s.crediting && s'.inflight == s.inflight
    ensures a in s.peers.states ==> a in s'.measured
  {
    hide Reaches, Peaceful;
    ThreeMore(events, VerifyOk(p), Credit(a, p), Credit(a, p));
    var s1: State;
    events', s1 := Do(cfg, events, s, VerifyOk(p));
    events', s' := Do(cfg, events', s1, Credit(a, p));
  }

  ghost function Downloaded(t: Tracker, p: nat): Tracker
    requires p < |t.needed| == |t.chunks| == |t.have|
  {
    Tracker(t.needed[p := false], t.chunks[p := AllSet(|t.chunks[p]|)], t.have[p := true])
  }

  // ---- when a session can finish --------------------------------------------------------

  // Every needed piece has a range in the chunk bitfield and a chunk to fetch.
  ghost predicate Finishable(cfg: Config)
    requires StartOk(cfg)
  {
    forall p: nat :: p < PieceTotal(cfg) && cfg.start.needed[p] ==>
      HasRange(cfg.lengths, p) && !All(cfg.start.chunks[p])
  }

  ghost predicate Finishes(cfg: Config, events: seq<Event>, s: State)
    requires StartOk(cfg)
  {
    Run(cfg, events) == Some(s) && IsFinished(cfg, s)
  }

  // One peer that has everything downloads the pieces from k on, one after another.
  lemma {:induction false} FinishFrom(cfg: Config, events: seq<Event>, s: State, k: nat)
    returns (events': seq<Event>, s': State)
    requires StartOk(cfg) && Finishable(cfg) && Reaches(cfg, events, s) && k <= PieceTotal(cfg)
    requires IsLive(s.peers, 1) && s.crediting == multiset{}
    requires forall p: nat :: p < k && cfg.start.needed[p] ==> s.tracker.have[p]
    requires forall p: nat :: k <= p < PieceTotal(cfg) ==>
               s.tracker.needed[p] == cfg.start.needed[p] && s.tracker.chunks[p] == cfg.start.chunks[p]
    ensures Reaches(cfg, events', s') && IsFinished(cfg, s')
    decreases PieceTotal(cfg) - k
  {
    hide HasRange, All, Reaches, Run, IsFinished;
    if k == PieceTotal(cfg) {
      events', s' := events, s;
      EveryPieceHad(cfg, events, s);
    } else if cfg.start.needed[k] {
      ReachedShape(cfg, events, s);
      events', s' := DownloadPiece(cfg, events, s, 1, k);
      events', s' := FinishFrom(cfg, events', s', k + 1);
    } else {
      events', s' := FinishFrom(cfg, events, s, k + 1);
    }
  }

  lemma EveryPieceHad(cfg: Config, events: seq<Event>, s: State)
    requires StartOk(cfg) && Finishable(cfg) && Reaches(cfg, events, s) && s.crediting == multiset{}
    requires forall p: nat :: p < PieceTotal(cfg) && cfg.start.needed[p] ==> s.tracker.have[p]
    ensures IsFinished(cfg, s)
  {
    hide HasRange, All, IsFinished, Run, Orderly;
    FinishedIff(cfg, events, s);
  }

  lemma FinishableFinishes(cfg: Config) returns (events: seq<Event>, s: State)
    requires StartOk(cfg) && Finishable(cfg)
    ensures Reaches(cfg, events, s) && Finishes(cfg, events, s)
  {
    hide HasRange, All, Finishable;
    events, s := Do(cfg, [], Initial(cfg), PeerIncoming(1));
    events, s := FinishFrom(cfg, events, s, 0);
  }

  // A piece without a range in the bitfield is never completed.
  lemma {:induction false} RangelessNeverComplete(cfg: Config, events: seq<Event>, s: State, p: nat)
    requires StartOk(cfg) && Run(cfg, events) == Some(s) && p < PieceTotal(cfg)
    requires !HasRange(cfg.lengths, p) && !All(cfg.start.chunks[p])
    ensures !All(s.tracker.chunks[p])
  {
    if events != [] {
      var n := |events| - 1;
      var before := Run(cfg, events[..n]).value;
      RangelessNeverComplete(cfg, events[..n], before, p);
      RangelessStep(cfg, before, events[n], p);
    }
  }

  lemma RangelessStep(cfg: Config, s: State, e: Event, p: nat)
    requires StartOk(cfg) && Shaped(s.tracker, PieceTotal(cfg)) && Enabled(cfg, s, e) && p < PieceTotal(cfg)
    requires !HasRange(cfg.lengths, p) && !All(s.tracker.chunks[p])
    ensures !All(Next(cfg, s, e).tracker.chunks[p])
  {
    hide HasRange;
    match e
    case ChunkArrived(a, q, c) =>
    case VerifyFailed(q) => if q == p && !s.tracker.have[p] { assert !NoneSet(|s.tracker.chunks[p]|)[0]; }
    case _ =>
  }

  lemma FinishedWasFinishable(cfg: Config, events: seq<Event>, s: State)
    requires StartOk(cfg) && Finishes(cfg, events, s)
    ensures Finishable(cfg)
  {
    hide HasRange, IsFinished, Run, Inv;
    FinishedIff(cfg, events, s);
    forall p: nat | p < PieceTotal(cfg) && cfg.start.needed[p]
      ensures HasRange(cfg.lengths, p) && !All(cfg.start.chunks[p])
    {
      if All(cfg.start.chunks[p]) {
        StuckNeverFinishes(cfg, events, s, p);
      } else if !HasRange(cfg.lengths, p) {
        RangelessNeverComplete(cfg, events, s, p);
        PiecesAreAccountedFor(cfg, events, s, p);
      }
    }
  }

  // A session can finish if and only if every needed piece has a chunk left to fetch and a
  // range in the chunk bitfield. So it cannot when one is stuck or already had; and when
  // it can, it can by an orderly run.
  lemma CanFinishIff(cfg: Config)
    requires StartOk(cfg)
    ensures (exists events, s :: Finishes(cfg, events, s)) <==> Finishable(cfg)
    ensures Finishable(cfg) ==> exists events, s :: Reaches(cfg, events, s) && Finishes(cfg, events, s)
    ensures Finishable(cfg) <==>
            && Stuck(cfg.start) == {}
            && forall p: nat :: p < PieceTotal(cfg) && cfg.start.needed[p] ==>
                 !cfg.start.have[p] && HasRange(cfg.lengths, p)
  {
    if Finishable(cfg) {
      var events, s := FinishableFinishes(cfg);
    }
    if events, s :| Finishes(cfg, events, s) {
      FinishedWasFinishable(cfg, events, s);
    }
    forall p: nat | p < PieceTotal(cfg) && cfg.start.needed[p] && All(cfg.start.chunks[p])
      ensures p in Stuck(cfg.start) || cfg.start.have[p]
    {
    }
  }

  ghost function NextSession(cfg: Config, s: State): Config
    requires Shaped(s.tracker, PieceTotal(cfg))
  {
    cfg.(start := PauseTracker(s.tracker, s.inflight.Keys))
  }

  // What a pause makes of a piece: needed by the next session, and beyond its reach.
  ghost predicate NeededNext(s: State, p: nat)
    requires p < |s.tracker.needed| == |s.tracker.have|
  {
    s.tracker.needed[p] || (p in s.inflight && !s.tracker.have[p])
  }

  ghost predicate OutOfReach(cfg: Config, s: State, p: nat)
    requires StartOk(cfg) && p < |s.tracker.have|
  {
    || !HasRange(cfg.lengths, p)
    || s.tracker.have[p]
    || ((p in s.verifying || p in s.lost) && p !in s.inflight)
  }

  // The session after a pause at any moment can finish if and only if no piece it needs is
  // already had, was with a verifier that was running or stopped, or lacks its range.
  lemma NextSessionCanFinishIff(cfg: Config, events: seq<Event>, s: State)
    requires StartOk(cfg) && Run(cfg, events) == Some(s)
    ensures StartOk(NextSession(cfg, s))
    ensures (exists events', s' :: Finishes(NextSession(cfg, s), events', s')) <==>
            forall p: nat :: p < PieceTotal(cfg) && NeededNext(s, p) ==> !OutOfReach(cfg, s, p)
  {
    hide HasRange, Run, All;
    var next := NextSession(cfg, s);
    PausedTorrentCanStart(cfg, events, s);
    CanFinishIff(next);
    assert PieceTotal(next) == PieceTotal(cfg);
    forall p: nat | p < PieceTotal(cfg)
      ensures next.start.needed[p] <==> NeededNext(s, p)
      ensures next.start.needed[p] ==>
                (next.start.have[p] || p in Stuck(next.start) || !HasRange(cfg.lengths, p) <==> OutOfReach(cfg, s, p))
    {
      assert p in Stuck(next.start) <==>
        (p in s.verifying || p in s.lost) && p < PieceTotal(cfg) && s.tracker.needed[p] && p !in s.inflight;
    }
  }

  // ---- what a pause can leave behind ----------------------------------------------------

  // A piece of the start that can be downloaded in the session.
  ghost predicate Downloadable(cfg: Config, p: nat)
    requires StartOk(cfg)
  {
    p < PieceTotal(cfg) && HasRange(cfg.lengths, p) && !All(cfg.start.chunks[p])
  }

  // A thief must have completed another piece first.
  ghost predicate Robbable(cfg: Config, p: nat)
    requires StartOk(cfg)
  {
    Downloadable(cfg, p) && exists q :: q != p && Downloadable(cfg, q)
  }

  // A peer completes q; another one is given p and requests a chunk of it.
  lemma HolderAndThief(cfg: Config, p: nat, q: nat) returns (events: seq<Event>, s: State)
    requires StartOk(cfg) && Downloadable(cfg, p) && Downloadable(cfg, q) && p != q
    ensures Reaches(cfg, events, s) && Holds(cfg, s, 1, p) && IsLive(s.peers, 2) && 2 in s.measured
    ensures (p, 0) in s.peers.states[1].live.inflightRequests
    ensures !s.tracker.have[p]
  {
    hide HasRange, All, Reaches;
    events, s := ThiefIsMeasured(cfg, p, q);
    events, s := Do(cfg, events, s, PeerIncoming(1));
    events, s := GetPiece(cfg, events, s, 1, p);
    events, s := Do(cfg, events, s, AddRequest(1, p, 0));
  }

  lemma ThiefIsMeasured(cfg: Config, p: nat, q: nat) returns (events: seq<Event>, s: State)
    requires StartOk(cfg) && Downloadable(cfg, p) && Downloadable(cfg, q) && p != q
    ensures Reaches(cfg, events, s) && IsLive(s.peers, 2) && 2 in s.measured && 1 !in s.peers.states
    ensures Fetchable(cfg, s, p) && !s.tracker.have[p]
  {
    hide HasRange, All;
    events, s := Do(cfg, [], Initial(cfg), PeerIncoming(2));
    events, s := DownloadPiece(cfg, events, s, 2, q);
  }

  // It is robbed by the first, which asks it for the piece's chunks, and dies: the piece is
  // needed again while the thief completes it.
  lemma NeededUnderVerification(cfg: Config, p: nat, q: nat) returns (events: seq<Event>, s: State)
    requires StartOk(cfg) && Downloadable(cfg, p) && Downloadable(cfg, q) && p != q
    ensures Reaches(cfg, events, s) && Shaped(s.tracker, PieceTotal(cfg))
    ensures s.tracker.needed[p] && !s.tracker.have[p] && All(s.tracker.chunks[p])
    ensures p in s.verifying && p !in s.inflight && p in s.verifier && s.verifier[p] == 2
  {
    hide HasRange, All, Reaches;
    events, s := HolderAndThief(cfg, p, q);
    events, s := Do(cfg, events, s, Steal(2, p));
    ghost var requests := s.peers.states[1].live.inflightRequests;
    assert HasRequest(requests, p) by { assert (p, 0) in requests; }
    events, s := Do(cfg, events, s, Died(1, true));
    events, s := FillPiece(cfg, events, s, 2, p, 0);
  }

  // Everything that was given, requested or received of piece p is a's.
  ghost predicate OnlyBy(s: State, p: nat, a: Addr) {
    && (forall g :: g in s.given && g.1 == p ==> g.0 == a)
    && (forall g :: g in s.took && g.1 == p ==> g.0 == a)
    && (forall b, r :: IsLive(s.peers, b) && r in s.peers.states[b].live.inflightRequests && r.0 == p ==> b == a)
  }

  // Nothing of piece p is.
  ghost predicate Untouched(s: State, p: nat) {
    && (forall g :: g in s.given ==> g.1 != p)
    && (forall g :: g in s.took ==> g.1 != p)
    && (forall b, r :: IsLive(s.peers, b) && r in s.peers.states[b].live.inflightRequests ==> r.0 != p)
  }

  // What holds of a piece while no other can be completed, so that nobody can steal it: it
  // is needed only while nobody works on it, and its holder is the only one who does.
  ghost predicate Alone(cfg: Config, s: State, p: nat)
    requires StartOk(cfg) && p < PieceTotal(cfg)
  {
    && Shaped(s.tracker, PieceTotal(cfg))
    && (forall q: nat :: q < PieceTotal(cfg) && q != p ==>
          s.verifying[q] == 0 && s.crediting[q] == 0 && (All(cfg.start.chunks[q]) ==> All(s.tracker.chunks[q])))
    && (!s.tracker.have[p] ==> s.measured == {} && s.crediting[p] == 0)
    && (All(s.tracker.chunks[p]) ==> !s.tracker.needed[p])
    && (!All(s.tracker.chunks[p]) ==>
          && !s.tracker.have[p]
          && (s.tracker.needed[p] ==> Untouched(s, p))
          && (!s.tracker.needed[p] ==> p in s.inflight && OnlyBy(s, p, s.inflight[p])))
  }

  ghost predicate OnlyOne(cfg: Config, p: nat)
    requires StartOk(cfg)
  {
    p < PieceTotal(cfg) && !All(cfg.start.chunks[p]) && forall q :: q != p ==> !Downloadable(cfg, q)
  }

  lemma AloneAtStart(cfg: Config, p: nat)
    requires StartOk(cfg) && OnlyOne(cfg, p)
    ensures Alone(cfg, Initial(cfg), p)
  {
  }

  lemma AloneStep(cfg: Config, s: State, e: Event, p: nat)
    requires StartOk(cfg) && OnlyOne(cfg, p) && Inv(cfg, s) && Alone(cfg, s, p) && Enabled(cfg, s, e) && InTurn(s, e)
    ensures Alone(cfg, Next(cfg, s, e), p)
  {
    VerifiedIsComplete(cfg, s);
    hide Alone, Next, OnlyOne, Inv, All;
    match e
    case Reserve(a, q) => AloneReserve(cfg, s, a, q, p);
    case Steal(a, q) => AloneSteal(cfg, s, a, q, p);
    case AddRequest(a, q, c) => AloneRequest(cfg, s, e, p);
    case TakeRequest(a, q, c) => AloneRequest(cfg, s, e, p);
    case ChunkArrived(a, q, c) => AloneChunk(cfg, s, a, q, c, p);
    case VerifyOk(q) => AloneVerifier(cfg, s, e, p);
    case VerifyAborted(q) => AloneVerifier(cfg, s, e, p);
    case Credit(a, q) => AloneCredit(cfg, s, a, q, p);
    case Died(a, hadError) => AloneDied(cfg, s, a, hadError, p);
    case _ => AlonePeers(cfg, s, e, p);
  }

  lemma VerifiedIsComplete(cfg: Config, s: State)
    requires StartOk(cfg) && Inv(cfg, s)
    ensures forall q: nat :: q < PieceTotal(cfg) && q in s.verifying ==> All(s.tracker.chunks[q])
  {
    forall q: nat | q < PieceTotal(cfg) && q in s.verifying ensures All(s.tracker.chunks[q]) {
      assert PieceInv(cfg, s, q);
    }
  }

  lemma AloneReserve(cfg: Config, s: State, a: Addr, q: nat, p: nat)
    requires StartOk(cfg) && OnlyOne(cfg, p) && Alone(cfg, s, p) && Enabled(cfg, s, Reserve(a, q))
    ensures Alone(cfg, Next(cfg, s, Reserve(a, q)), p)
  {
    assert s.tracker.needed[q];
    hide HasRange, All, OnlyOne, IsNextNeeded;
    var s' := Next(cfg, s, Reserve(a, q));
    assert s'.given == s.given + {(a, q)} && s'.tracker.needed == s.tracker.needed[q := false];
    if q == p {
      assert OnlyBy(s', p, a);
    }
  }

  // Whoever could steal has completed a piece, and that can only have been p.
  lemma AloneSteal(cfg: Config, s: State, a: Addr, q: nat, p: nat)
    requires StartOk(cfg) && OnlyOne(cfg, p) && Alone(cfg, s, p) && Enabled(cfg, s, Steal(a, q))
    ensures Alone(cfg, Next(cfg, s, Steal(a, q)), p)
  {
    hide HasRange, All, OnlyOne;
  }

  lemma AloneRequest(cfg: Config, s: State, e: Event, p: nat)
    requires StartOk(cfg) && OnlyOne(cfg, p) && Alone(cfg, s, p) && Enabled(cfg, s, e) && InTurn(s, e)
    requires e.AddRequest? || e.TakeRequest?
    ensures Alone(cfg, Next(cfg, s, e), p)
  {
    hide HasRange, All, OnlyOne;
  }

  // No chunk completes another piece: it was complete or cannot be.
  lemma AloneChunk(cfg: Config, s: State, a: Addr, q: nat, c: nat, p: nat)
    requires StartOk(cfg) && OnlyOne(cfg, p) && Alone(cfg, s, p)
    requires Enabled(cfg, s, ChunkArrived(a, q, c)) && InTurn(s, ChunkArrived(a, q, c))
    ensures Alone(cfg, Next(cfg, s, ChunkArrived(a, q, c)), p)
  {
    hide HasRange, All;
    assert q != p ==> All(cfg.start.chunks[q]) || !HasRange(cfg.lengths, q) by {
      if q != p { assert !Downloadable(cfg, q); }
    }
  }

  lemma AloneVerifier(cfg: Config, s: State, e: Event, p: nat)
    requires StartOk(cfg) && OnlyOne(cfg, p) && Alone(cfg, s, p) && Enabled(cfg, s, e)
    requires e.VerifyOk? || e.VerifyAborted?
    requires s.verifying[e.p] > 0 ==> All(s.tracker.chunks[e.p])
    ensures Alone(cfg, Next(cfg, s, e), p)
  {
    hide HasRange, All, OnlyOne;
  }

  lemma AloneCredit(cfg: Config, s: State, a: Addr, q: nat, p: nat)
    requires StartOk(cfg) && OnlyOne(cfg, p) && Alone(cfg, s, p) && Enabled(cfg, s, Credit(a, q))
    ensures Alone(cfg, Next(cfg, s, Credit(a, q)), p)
  {
    hide HasRange, All, OnlyOne;
  }

  // Only the holder's death makes p needed again, and it ends all work on p.
  lemma AloneDied(cfg: Config, s: State, a: Addr, hadError: bool, p: nat)
    requires StartOk(cfg) && OnlyOne(cfg, p) && Alone(cfg, s, p)
    ensures Alone(cfg, Next(cfg, s, Died(a, hadError)), p)
  {
    assert p < PieceTotal(cfg);
    CancelKeeps(cfg, s, a);
    DeadIsGone(s.peers, a, hadError, IsFinished(cfg, s));
    hide HasRange, All, OnlyOne, IsFinished, PeerDied, AfterDeath, IsLive;
    var s' := Next(cfg, s, Died(a, hadError));
    if !All(s.tracker.chunks[p]) {
      if s.tracker.needed[p] {
        assert Untouched(s', p);
      } else if s'.tracker.needed[p] {
        CancelledWasHeld(cfg, s, a, p);
        assert Untouched(s', p);
      } else {
        assert OnlyBy(s', p, s.inflight[p]);
      }
    }
  }

  // Cancelling changes nothing but needed bits of pieces that are not complete.
  lemma CancelKeeps(cfg: Config, s: State, a: Addr)
    requires StartOk(cfg) && Shaped(s.tracker, PieceTotal(cfg))
    ensures var t := AfterDeath(cfg, s, a);
            && t.chunks == s.tracker.chunks && t.have == s.tracker.have
            && (forall q: nat :: q < PieceTotal(cfg) && s.tracker.needed[q] ==> t.needed[q])
            && (forall q: nat :: q < PieceTotal(cfg) && All(s.tracker.chunks[q]) ==> t.needed[q] == s.tracker.needed[q])
  {
    hide HasRange, All, HasRequest;
  }

  // A dead peer is not live, and the others are as they were.
  lemma DeadIsGone(t: PeerTable, a: Addr, hadError: bool, finished: bool)
    ensures !IsLive(PeerDied(t, a, hadError, finished), a)
    ensures forall b: Addr :: b != a && IsLive(PeerDied(t, a, hadError, finished), b) ==>
              IsLive(t, b) && PeerDied(t, a, hadError, finished).states[b] == t.states[b]
  {
  }

  lemma CancelledWasHeld(cfg: Config, s: State, a: Addr, p: nat)
    requires StartOk(cfg) && Shaped(s.tracker, PieceTotal(cfg)) && p < PieceTotal(cfg)
    requires !s.tracker.needed[p] && AfterDeath(cfg, s, a).needed[p]
    requires p in s.inflight && OnlyBy(s, p, s.inflight[p])
    ensures s.inflight[p] == a
  {
    hide HasRange, All;
    var r :| r in s.peers.states[a].live.inflightRequests && r.0 == p;
  }

  // Other events of the peer table bring no requests.
  lemma NoNewRequests(cfg: Config, s: State, e: Event)
    requires StartOk(cfg) && Shaped(s.tracker, PieceTotal(cfg)) && Enabled(cfg, s, e)
    requires IsTableEvent(e) && !e.AddRequest? && !e.TakeRequest?
    ensures var s' := Next(cfg, s, e);
            && s' == s.(peers := s'.peers, measured := s'.measured) && s'.measured <= s.measured
            && forall b, r :: IsLive(s'.peers, b) && r in s'.peers.states[b].live.inflightRequests ==>
                 IsLive(s.peers, b) && r in s.peers.states[b].live.inflightRequests
  {
  }

  lemma AlonePeers(cfg: Config, s: State, e: Event, p: nat)
    requires StartOk(cfg) && OnlyOne(cfg, p) && Alone(cfg, s, p) && Enabled(cfg, s, e)
    requires IsTableEvent(e) && !e.AddRequest? && !e.TakeRequest?
    ensures Alone(cfg, Next(cfg, s, e), p)
  {
    NoNewRequests(cfg, s, e);
    hide HasRange, All, OnlyOne, Next, IsLive;
  }

  // While p is the only piece that can be completed it stays alone, in any orderly run.
  lemma {:induction false} AloneStaysAlone(cfg: Config, events: seq<Event>, s: State, p: nat)
    requires StartOk(cfg) && OnlyOne(cfg, p) && Reaches(cfg, events, s)
    ensures Alone(cfg, s, p)
  {
    hide Alone, OnlyOne, Next, Enabled, InTurn, Inv;
    if events == [] {
      AloneAtStart(cfg, p);
    } else {
      var n := |events| - 1;
      var before := Run(cfg, events[..n]).value;
      AloneStaysAlone(cfg, events[..n], before, p);
      RunKeepsInv(cfg, events[..n], before);
      AloneStep(cfg, before, events[n], p);
    }
  }

  lemma PausedClears(t: Tracker, inflight: set<nat>, p: nat)
    requires |t.needed| == |t.chunks| == |t.have| && p < |t.chunks| && |t.chunks[p]| > 0
    ensures p in inflight && !t.have[p] ==> !All(PauseTracker(t, inflight).chunks[p])
    ensures !(p in inflight && !t.have[p]) ==> PauseTracker(t, inflight).chunks[p] == t.chunks[p]
  {
    if p in inflight && !t.have[p] { assert !PauseTracker(t, inflight).chunks[p][0]; }
  }

  // A pause leaves a piece needed with every chunk bit set only if it was so at the start,
  // or it can be robbed.
  lemma NeededAndCompleteWhen(cfg: Config, events: seq<Event>, s: State, p: nat)
    requires StartOk(cfg) && Reaches(cfg, events, s) && p < PieceTotal(cfg)
    requires var t := NextSession(cfg, s).start; t.needed[p] && All(t.chunks[p])
    ensures (cfg.start.needed[p] && All(cfg.start.chunks[p])) || Robbable(cfg, p)
  {
    RunKeepsInv(cfg, events, s);
    assert PieceInv(cfg, s, p);
    var t := NextSession(cfg, s).start;
    PausedClears(s.tracker, s.inflight.Keys, p);
    assert s.tracker.needed[p] && All(s.tracker.chunks[p]);
    hide HasRange, All, Inv, PieceInv;
    if !All(cfg.start.chunks[p]) {
      if !HasRange(cfg.lengths, p) { RangelessNeverComplete(cfg, events, s, p); }
      if !Robbable(cfg, p) {
        assert OnlyOne(cfg, p);
        AloneStaysAlone(cfg, events, s, p);
      }
    }
  }

  // After an orderly run and a pause a piece can be stuck, needed with every chunk bit set
  // but not had, if and only if it was at the start or it can be robbed: it and another
  // piece can be downloaded in the session.
  lemma StuckAfterPauseIff(cfg: Config, p: nat)
    requires StartOk(cfg) && p < PieceTotal(cfg)
    ensures (exists events, s :: Reaches(cfg, events, s) && p in Stuck(NextSession(cfg, s).start)) <==>
            p in Stuck(cfg.start) || Robbable(cfg, p)
  {
    if p in Stuck(cfg.start) {
      assert Reaches(cfg, [], Initial(cfg));
      assert p in Stuck(NextSession(cfg, Initial(cfg)).start);
    }
    if Robbable(cfg, p) { RobbedIsStuck(cfg, p); }
    if events, s :| Reaches(cfg, events, s) && p in Stuck(NextSession(cfg, s).start) {
      NeededAndCompleteWhen(cfg, events, s, p);
      RunKeepsInv(cfg, events, s);
      assert PieceInv(cfg, s, p);
    }
  }

  lemma RobbedIsStuck(cfg: Config, p: nat)
    requires StartOk(cfg) && Robbable(cfg, p)
    ensures exists events, s :: Reaches(cfg, events, s) && p in Stuck(NextSession(cfg, s).start)
  {
    hide HasRange, All;
    var q :| q != p && Downloadable(cfg, q);
    var events, s := NeededUnderVerification(cfg, p, q);
    assert NextSession(cfg, s).start.chunks[p] == s.tracker.chunks[p];
    assert p in Stuck(NextSession(cfg, s).start);
  }

  // The other way to fail: a piece both needed and had. It arises from the same runs when
  // the thief's check comes before the pause, and from no others.
  lemma HadAndNeededAfterPauseIff(cfg: Config, p: nat)
    requires StartOk(cfg) && p < PieceTotal(cfg)
    ensures (exists events, s :: Reaches(cfg, events, s) && HadAndNeeded(NextSession(cfg, s).start, p)) <==>
            HadAndNeeded(cfg.start, p) || Robbable(cfg, p)
  {
    if HadAndNeeded(cfg.start, p) {
      assert Reaches(cfg, [], Initial(cfg));
      assert HadAndNeeded(NextSession(cfg, Initial(cfg)).start, p);
    }
    if Robbable(cfg, p) { RobbedIsHadAndNeeded(cfg, p); }
    if events, s :| Reaches(cfg, events, s) && HadAndNeeded(NextSession(cfg, s).start, p) {
      RunKeepsInv(cfg, events, s);
      assert PieceInv(cfg, s, p);
      assert NextSession(cfg, s).start.chunks[p] == s.tracker.chunks[p];
      NeededAndCompleteWhen(cfg, events, s, p);
      if p in Stuck(cfg.start) { StuckStaysLost(cfg, events, s, p); }
    }
  }

  ghost predicate HadAndNeeded(t: Tracker, p: nat) {
    p < |t.needed| && p < |t.have| && t.needed[p] && t.have[p]
  }

  lemma RobbedIsHadAndNeeded(cfg: Config, p: nat)
    requires StartOk(cfg) && Robbable(cfg, p)
    ensures exists events, s :: Reaches(cfg, events, s) && HadAndNeeded(NextSession(cfg, s).start, p)
  {
    hide HasRange, All;
    var q :| q != p && Downloadable(cfg, q);
    var events, s := NeededUnderVerification(cfg, p, q);
    events, s := CheckAndCredit(cfg, events, s, 2, p);
    PausedHadAndNeeded(cfg, s, p);
  }

  lemma PausedHadAndNeeded(cfg: Config, s: State, p: nat)
    requires Shaped(s.tracker, PieceTotal(cfg)) && HadAndNeeded(s.tracker, p)
    ensures HadAndNeeded(NextSession(cfg, s).start, p)
  {
  }

  // ---- pieces that a pause loses ---------------------------------------------------------

  ghost predicate InNeither(t: Tracker, p: nat) {
    p < |t.needed| && p < |t.have| && !t.needed[p] && !t.have[p]
  }

  // A piece complete at the start without being had is needed or in flight ever after.
  lemma {:induction false} StuckStaysWanted(cfg: Config, events: seq<Event>, s: State, p: nat)
    requires StartOk(cfg) && Run(cfg, events) == Some(s) && p in Stuck(cfg.start)
    ensures s.tracker.needed[p] || p in s.inflight
  {
    if events != [] {
      var n := |events| - 1;
      var before := Run(cfg, events[..n]).value;
      StuckStaysWanted(cfg, events[..n], before, p);
      StuckStaysLost(cfg, events[..n], before, p);
      RunKeepsInv(cfg, events[..n], before);
      assert PieceInv(cfg, before, p);
      WantedStep(cfg, before, events[n], p);
    }
  }

  lemma WantedStep(cfg: Config, s: State, e: Event, p: nat)
    requires StartOk(cfg) && Shaped(s.tracker, PieceTotal(cfg)) && Enabled(cfg, s, e) && p < PieceTotal(cfg)
    requires All(s.tracker.chunks[p]) && (s.tracker.needed[p] || p in s.inflight)
    ensures var s' := Next(cfg, s, e); s'.tracker.needed[p] || p in s'.inflight
  {
    hide HasRange, All, IsNextNeeded, IsLive;
    match e
    case Died(a, hadError) => CancelKeeps(cfg, s, a);
    case _ =>
  }

  // A pause after an orderly run can leave a needed piece in neither set, so that no session
  // after it ever downloads it, if and only if the piece can be downloaded in this one.
  lemma LostAfterPauseIff(cfg: Config, p: nat)
    requires StartOk(cfg) && p < PieceTotal(cfg) && cfg.start.needed[p]
    ensures (exists events, s :: Reaches(cfg, events, s) && InNeither(NextSession(cfg, s).start, p)) <==>
            Downloadable(cfg, p)
  {
    if Downloadable(cfg, p) { LostWhileVerifying(cfg, p); }
    if events, s :| Reaches(cfg, events, s) && InNeither(NextSession(cfg, s).start, p) {
      LostWasDownloadable(cfg, events, s, p);
    }
  }

  lemma LostWhileVerifying(cfg: Config, p: nat)
    requires StartOk(cfg) && Downloadable(cfg, p) && cfg.start.needed[p]
    ensures exists events, s :: Reaches(cfg, events, s) && InNeither(NextSession(cfg, s).start, p)
  {
    hide HasRange, All;
    var events, s := Do(cfg, [], Initial(cfg), PeerIncoming(1));
    events, s := GetPiece(cfg, events, s, 1, p);
    events, s := FillPiece(cfg, events, s, 1, p, 0);
    hide Run, Orderly;
    PauseLosesOnly(cfg, events, s, p);
    assert InNeither(NextSession(cfg, s).start, p);
  }

  lemma LostWasDownloadable(cfg: Config, events: seq<Event>, s: State, p: nat)
    requires StartOk(cfg) && p < PieceTotal(cfg) && cfg.start.needed[p]
    requires Reaches(cfg, events, s) && InNeither(NextSession(cfg, s).start, p)
    ensures Downloadable(cfg, p)
  {
    hide HasRange, All, Run, Orderly;
    PauseLosesOnly(cfg, events, s, p);
    RunKeepsInv(cfg, events, s);
    assert PieceInv(cfg, s, p);
    if All(cfg.start.chunks[p]) {
      StuckStaysWanted(cfg, events, s, p);
    } else if !HasRange(cfg.lengths, p) {
      RangelessNeverComplete(cfg, events, s, p);
    }
  }
}
