// Which states of a live session can still finish.
//
// A piece that is neither needed nor complete is in flight. It moves again only through a
// connection that was given it, or through a thief, and only who has an average piece
// download time can steal.
module DownloadProgress {
  import opened Wrappers
  import opened Lengths
  import opened Peers
  import opened ChunkTracker
  import opened DownloadProtocol
  import opened DownloadReachability

  ghost predicate Unfinished(cfg: Config, s: State, p: nat)
    requires StartOk(cfg) && Shaped(s.tracker, PieceTotal(cfg))
  {
    p < PieceTotal(cfg) && !All(s.tracker.chunks[p])
  }

  // A peer that has a download time, or gets one when the verifier it runs is done.
  ghost predicate CanSteal(s: State, b: Addr) {
    b in s.measured || exists q :: VerifiedBy(s, q, b)
  }

  ghost predicate VerifiedBy(s: State, q: nat, b: Addr) {
    (q in s.verifying || q in s.crediting) && q in s.verifier && s.verifier[q] == b
  }

  // An open connection was given the piece.
  ghost predicate IsGiven(s: State, p: nat) { exists a :: (a, p) in s.given }

  ghost predicate Robbed(s: State, p: nat) {
    p in s.inflight && exists b :: CanSteal(s, b) && b != s.inflight[p]
  }

  ghost predicate Movable(s: State, p: nat)
    requires p < |s.tracker.needed|
  {
    s.tracker.needed[p] || IsGiven(s, p) || Robbed(s, p)
  }

  // No initially needed piece is beyond this session.
  ghost predicate AllInReach(cfg: Config, s: State)
    requires StartOk(cfg) && Shaped(s.tracker, PieceTotal(cfg))
  {
    forall p: nat :: p < PieceTotal(cfg) && cfg.start.needed[p] ==>
      !cfg.start.have[p] && p !in s.lost && (!All(s.tracker.chunks[p]) ==> HasRange(cfg.lengths, p))
  }

  // There are unfinished pieces, and none of them moves.
  ghost predicate Frozen(cfg: Config, s: State)
    requires StartOk(cfg) && Shaped(s.tracker, PieceTotal(cfg))
  {
    && (exists p :: Unfinished(cfg, s, p))
    && forall p :: Unfinished(cfg, s, p) ==> !Movable(s, p)
  }

  ghost predicate Continues(cfg: Config, events: seq<Event>, events': seq<Event>, s': State)
    requires StartOk(cfg)
  {
    events <= events' && Reaches(cfg, events', s')
  }

  // ---- what orderly runs keep -----------------------------------------------------------

  // Requests and arrived chunks are of pieces their connection was given, which somebody
  // reserved; and who completed a piece under verification is known.
  ghost predicate Tidy(s: State) {
    && RequestsGiven(s.peers, s.given)
    && (forall g :: g in s.took ==> (g.0, g.1) in s.given)
    && (forall g :: g in s.given ==> g.1 in s.reserved)
    && (forall q :: q in s.verifying || q in s.crediting ==> q in s.verifier)
  }

  ghost predicate RequestsGiven(peers: PeerTable, given: set<(Addr, nat)>) {
    forall b, r :: IsLive(peers, b) && r in peers.states[b].live.inflightRequests ==> (b, r.0) in given
  }

  lemma TidyStep(cfg: Config, s: State, e: Event)
    requires StartOk(cfg) && Inv(cfg, s) && Tidy(s) && Enabled(cfg, s, e) && InTurn(s, e)
    ensures Tidy(Next(cfg, s, e))
  {
    match e
    case Reserve(a, p) => TidyTaken(cfg, s, e);
    case Steal(a, p) => HeldIsReserved(cfg, s, p); TidyTaken(cfg, s, e);
    case AddRequest(a, p, c) => TidyRequest(cfg, s, e);
    case TakeRequest(a, p, c) => TidyRequest(cfg, s, e);
    case ChunkArrived(a, p, c) => TidyChunk(cfg, s, a, p, c);
    case VerifyOk(p) => TidyVerifier(cfg, s, e);
    case VerifyAborted(p) => TidyVerifier(cfg, s, e);
    case Credit(a, p) => TidyVerifier(cfg, s, e);
    case Died(a, hadError) => TidyDied(cfg, s, a, hadError);
    case _ => TidyTable(cfg, s, e);
  }

  lemma HeldIsReserved(cfg: Config, s: State, p: nat)
    requires StartOk(cfg) && Inv(cfg, s) && p in s.inflight
    ensures p in s.reserved
  {
    assert PieceInv(cfg, s, p);
  }

  lemma TidyTaken(cfg: Config, s: State, e: Event)
    requires StartOk(cfg) && Shaped(s.tracker, PieceTotal(cfg)) && Tidy(s) && Enabled(cfg, s, e)
    requires e.Reserve? || (e.Steal? && e.p in s.reserved)
    ensures Tidy(Next(cfg, s, e))
  {
    hide HasRange, All, IsNextNeeded;
  }

  lemma TidyRequest(cfg: Config, s: State, e: Event)
    requires StartOk(cfg) && Shaped(s.tracker, PieceTotal(cfg)) && Tidy(s) && Enabled(cfg, s, e) && InTurn(s, e)
    requires e.AddRequest? || e.TakeRequest?
    ensures Tidy(Next(cfg, s, e))
  {
    hide HasRange, All;
  }

  lemma TidyKept(s: State, s': State)
    requires Tidy(s) && s'.peers == s.peers && s'.took == s.took && s'.given == s.given && s'.reserved == s.reserved
    requires forall q :: q in s'.verifying || q in s'.crediting ==> q in s'.verifier
    ensures Tidy(s')
  {
    hide RequestsGiven;
  }

  lemma TidyChunk(cfg: Config, s: State, a: Addr, p: nat, c: nat)
    requires StartOk(cfg) && Shaped(s.tracker, PieceTotal(cfg)) && Tidy(s) && Enabled(cfg, s, ChunkArrived(a, p, c))
    ensures Tidy(Next(cfg, s, ChunkArrived(a, p, c)))
  {
    hide HasRange, All, RequestsGiven;
    var s' := Next(cfg, s, ChunkArrived(a, p, c));
    assert s'.verifying == s.verifying
           || (s'.verifying == s.verifying + multiset{p} && s'.verifier == s.verifier[p := a]);
    assert s' == s.(tracker := s'.tracker, inflight := s'.inflight, verifying := s'.verifying, verifier := s'.verifier);
    assert s'.verifier == s.verifier || s'.verifier == s.verifier[p := a];
    hide Next;
    TidyKept(s, s');
  }

  lemma TidyVerifier(cfg: Config, s: State, e: Event)
    requires StartOk(cfg) && Shaped(s.tracker, PieceTotal(cfg)) && Tidy(s) && Enabled(cfg, s, e)
    requires e.VerifyOk? || e.VerifyAborted? || e.Credit?
    ensures Tidy(Next(cfg, s, e))
  {
    var s' := Next(cfg, s, e);
    VerifierLeaves(cfg, s, e);
    hide Next, Tidy, Enabled;
    VerifiersStayKnown(s, s', e.p);
    TidyKept(s, s');
  }

  // Who verifies or credits leaves, or goes on to the credit.
  lemma VerifierLeaves(cfg: Config, s: State, e: Event)
    requires StartOk(cfg) && Shaped(s.tracker, PieceTotal(cfg)) && Enabled(cfg, s, e)
    requires e.VerifyOk? || e.VerifyAborted? || e.Credit?
    ensures var s' := Next(cfg, s, e);
            && s'.verifier == s.verifier && s'.peers == s.peers && s'.took == s.took && s'.given == s.given
            && s'.reserved == s.reserved
            && (s'.verifying == s.verifying || s'.verifying == s.verifying - multiset{e.p})
            && (|| s'.crediting == s.crediting || s'.crediting == s.crediting - multiset{e.p}
                || (e.p in s.verifying && s'.crediting == s.crediting + multiset{e.p}))
  {
    hide All, MarkDownloaded, PieceLength, IsLive;
  }

  lemma VerifiersStayKnown(s: State, s': State, p: nat)
    requires Tidy(s) && s'.verifier == s.verifier
    requires s'.verifying == s.verifying || s'.verifying == s.verifying - multiset{p}
    requires || s'.crediting == s.crediting || s'.crediting == s.crediting - multiset{p}
             || (p in s.verifying && s'.crediting == s.crediting + multiset{p})
    ensures forall q :: q in s'.verifying || q in s'.crediting ==> q in s'.verifier
  {
    hide RequestsGiven;
  }

  lemma TidyDied(cfg: Config, s: State, a: Addr, hadError: bool)
    requires StartOk(cfg) && Shaped(s.tracker, PieceTotal(cfg)) && Tidy(s)
    ensures Tidy(Next(cfg, s, Died(a, hadError)))
  {
    DeadIsGone(s.peers, a, hadError, IsFinished(cfg, s));
    hide HasRange, All, IsLive, IsFinished, PeerDied, AfterDeath;
  }

  lemma TidyTable(cfg: Config, s: State, e: Event)
    requires StartOk(cfg) && Shaped(s.tracker, PieceTotal(cfg)) && Tidy(s) && Enabled(cfg, s, e)
    requires IsTableEvent(e) && !e.AddRequest? && !e.TakeRequest?
    ensures Tidy(Next(cfg, s, e))
  {
    NoNewRequests(cfg, s, e);
    hide HasRange, All, Next, IsLive;
  }

  lemma {:induction false} ReachedIsTidy(cfg: Config, events: seq<Event>, s: State)
    requires StartOk(cfg) && Reaches(cfg, events, s)
    ensures Inv(cfg, s) && Tidy(s)
  {
    hide Inv, Tidy, InTurn, Next, Enabled;
    RunKeepsInv(cfg, events, s);
    if events == [] {
      assert Tidy(Initial(cfg)) by { TidyAtStart(cfg); }
    } else {
      var n := |events| - 1;
      var before := Run(cfg, events[..n]).value;
      ReachedIsTidy(cfg, events[..n], before);
      TidyStep(cfg, before, events[n]);
    }
  }

  lemma TidyAtStart(cfg: Config)
    requires StartOk(cfg)
    ensures Tidy(Initial(cfg))
  {
  }

  // ---- what cannot finish never does ----------------------------------------------------

  // The unfinished pieces, their holders and who was given them stay, no unfinished piece is
  // needed, and no thief comes up.
  ghost predicate Stays(cfg: Config, s: State, s': State)
    requires StartOk(cfg) && Shaped(s.tracker, PieceTotal(cfg)) && Shaped(s'.tracker, PieceTotal(cfg))
  {
    && s'.tracker.chunks == s.tracker.chunks
    && (forall p: nat :: Unfinished(cfg, s, p) ==> StaysPut(s, s', p))
    && (forall b :: CanSteal(s', b) ==> CanSteal(s, b))
  }

  ghost predicate StaysPut(s: State, s': State, p: nat)
    requires p < |s'.tracker.needed|
  {
    && !s'.tracker.needed[p]
    && (p in s'.inflight ==> p in s.inflight && s'.inflight[p] == s.inflight[p])
    && forall a :: (a, p) in s'.given ==> (a, p) in s.given
  }

  lemma StaysFrozen(cfg: Config, s: State, s': State)
    requires StartOk(cfg) && Shaped(s.tracker, PieceTotal(cfg)) && Shaped(s'.tracker, PieceTotal(cfg))
    requires Frozen(cfg, s) && Stays(cfg, s, s')
    ensures Frozen(cfg, s')
  {
    hide All, CanSteal;
    var p :| Unfinished(cfg, s, p);
    assert Unfinished(cfg, s', p);
    forall q: nat | Unfinished(cfg, s', q) ensures !Movable(s', q) {
      assert Unfinished(cfg, s, q) && !Movable(s, q) && StaysPut(s, s', q);
      WasMovable(s, s', q);
    }
  }

  lemma WasMovable(s: State, s': State, q: nat)
    requires q < |s.tracker.needed| && q < |s'.tracker.needed| && StaysPut(s, s', q)
    requires forall b :: CanSteal(s', b) ==> CanSteal(s, b)
    ensures Movable(s', q) ==> Movable(s, q)
  {
    hide CanSteal;
    if IsGiven(s', q) {
      var a :| (a, q) in s'.given;
      assert (a, q) in s.given;
    }
    if Robbed(s', q) {
      var b :| CanSteal(s', b) && b != s'.inflight[q];
      assert CanSteal(s, b);
    }
  }

  lemma NotNeeded(cfg: Config, s: State, p: nat)
    requires StartOk(cfg) && Shaped(s.tracker, PieceTotal(cfg)) && Frozen(cfg, s) && Unfinished(cfg, s, p)
    ensures !s.tracker.needed[p]
  {
    assert !Movable(s, p);
  }

  lemma FrozenStep(cfg: Config, s: State, e: Event)
    requires StartOk(cfg) && Inv(cfg, s) && Tidy(s) && Frozen(cfg, s) && Enabled(cfg, s, e) && InTurn(s, e)
    ensures Frozen(cfg, Next(cfg, s, e))
  {
    NothingGiven(cfg, s);
    VerifiedIsComplete(cfg, s);
    hide Inv, Frozen, Next;
    match e
    case Reserve(a, p) => FrozenReserve(cfg, s, a, p);
    case Steal(a, p) => FrozenSteal(cfg, s, a, p);
    case ChunkArrived(a, p, c) => FrozenChunk(cfg, s, a, p, c);
    case VerifyOk(p) => FrozenVerifier(cfg, s, e);
    case VerifyAborted(p) => FrozenVerifier(cfg, s, e);
    case Credit(a, p) => FrozenVerifier(cfg, s, e);
    case Died(a, hadError) => FrozenDied(cfg, s, a, hadError);
    case AddRequest(a, p, c) => FrozenRequest(cfg, s, e);
    case TakeRequest(a, p, c) => FrozenRequest(cfg, s, e);
    case _ => FrozenTable(cfg, s, e);
  }

  lemma NothingGiven(cfg: Config, s: State)
    requires StartOk(cfg) && Shaped(s.tracker, PieceTotal(cfg)) && Frozen(cfg, s)
    ensures forall g :: g in s.given ==> !Unfinished(cfg, s, g.1)
  {
    forall g | g in s.given ensures !Unfinished(cfg, s, g.1) {
      assert (g.0, g.1) in s.given;
      assert IsGiven(s, g.1);
      assert g.1 < PieceTotal(cfg) ==> Movable(s, g.1);
    }
  }

  lemma FrozenReserve(cfg: Config, s: State, a: Addr, p: nat)
    requires StartOk(cfg) && Shaped(s.tracker, PieceTotal(cfg)) && Frozen(cfg, s) && Enabled(cfg, s, Reserve(a, p))
    ensures Frozen(cfg, Next(cfg, s, Reserve(a, p)))
  {
    assert s.tracker.needed[p];
    var s' := Next(cfg, s, Reserve(a, p));
    FewerThieves(s, s');
    hide All, IsNextNeeded, CanSteal, Frozen;
    forall q: nat | Unfinished(cfg, s, q) ensures StaysPut(s, s', q) { NotNeeded(cfg, s, q); }
    StaysFrozen(cfg, s, s');
  }

  // Whoever steals is a thief, so what is stolen is not an unfinished piece.
  lemma FrozenSteal(cfg: Config, s: State, a: Addr, p: nat)
    requires StartOk(cfg) && Shaped(s.tracker, PieceTotal(cfg)) && Frozen(cfg, s) && Enabled(cfg, s, Steal(a, p))
    ensures Frozen(cfg, Next(cfg, s, Steal(a, p)))
  {
    assert CanSteal(s, a) && Robbed(s, p);
    assert p < PieceTotal(cfg) && Unfinished(cfg, s, p) ==> Movable(s, p);
    var s' := Next(cfg, s, Steal(a, p));
    FewerThieves(s, s');
    hide All, CanSteal;
    forall q: nat | Unfinished(cfg, s, q) ensures StaysPut(s, s', q) { NotNeeded(cfg, s, q); }
    hide Frozen;
    StaysFrozen(cfg, s, s');
  }

  lemma FrozenChunk(cfg: Config, s: State, a: Addr, p: nat, c: nat)
    requires StartOk(cfg) && Shaped(s.tracker, PieceTotal(cfg)) && Frozen(cfg, s) && Tidy(s)
    requires Enabled(cfg, s, ChunkArrived(a, p, c)) && (a, p, c) in s.took
    requires forall g :: g in s.given ==> !Unfinished(cfg, s, g.1)
    ensures Frozen(cfg, Next(cfg, s, ChunkArrived(a, p, c)))
  {
    assert (a, p) in s.given;
    assert !Unfinished(cfg, s, p);
    hide Frozen, HasRange;
    assert Next(cfg, s, ChunkArrived(a, p, c)) == s;
  }

  lemma FrozenVerifier(cfg: Config, s: State, e: Event)
    requires StartOk(cfg) && Shaped(s.tracker, PieceTotal(cfg)) && Frozen(cfg, s) && Enabled(cfg, s, e)
    requires e.VerifyOk? || e.VerifyAborted? || e.Credit?
    ensures Frozen(cfg, Next(cfg, s, e))
  {
    var s' := Next(cfg, s, e);
    assert s'.tracker == s.tracker.(have := s'.tracker.have) && s'.inflight == s.inflight && s'.given == s.given;
    NoNewThief(cfg, s, e);
    hide All, CanSteal, Frozen, Next, IsLive;
    forall p: nat | Unfinished(cfg, s, p) ensures StaysPut(s, s', p) { NotNeeded(cfg, s, p); }
    StaysFrozen(cfg, s, s');
  }

  lemma NoNewThief(cfg: Config, s: State, e: Event)
    requires StartOk(cfg) && Shaped(s.tracker, PieceTotal(cfg)) && Enabled(cfg, s, e)
    requires e.VerifyOk? || e.VerifyAborted? || e.Credit?
    ensures forall b :: CanSteal(Next(cfg, s, e), b) ==> CanSteal(s, b)
  {
    hide All, MarkDownloaded, PieceLength, IsLive;
    var s' := Next(cfg, s, e);
    forall b | CanSteal(s', b) ensures CanSteal(s, b) {
      if b in s'.measured {
        if b !in s.measured { assert VerifiedBy(s, e.p, b); }
      } else {
        var q :| VerifiedBy(s', q, b);
        assert VerifiedBy(s, q, b);
      }
    }
  }

  lemma FrozenRequest(cfg: Config, s: State, e: Event)
    requires StartOk(cfg) && Shaped(s.tracker, PieceTotal(cfg)) && Frozen(cfg, s) && Enabled(cfg, s, e)
    requires e.AddRequest? || e.TakeRequest?
    ensures Frozen(cfg, Next(cfg, s, e))
  {
    var s' := Next(cfg, s, e);
    assert s' == s.(peers := s'.peers, took := s'.took);
    hide Next;
    FewerThieves(s, s');
    hide All, CanSteal, Frozen, Next, IsLive;
    forall p: nat | Unfinished(cfg, s, p) ensures StaysPut(s, s', p) { NotNeeded(cfg, s, p); }
    StaysFrozen(cfg, s, s');
  }

  lemma FewerThieves(s: State, s': State)
    requires s'.measured <= s.measured && s'.verifier == s.verifier
    requires s'.verifying == s.verifying && s'.crediting == s.crediting
    ensures forall b :: CanSteal(s', b) ==> CanSteal(s, b)
  {
    forall b | CanSteal(s', b) ensures CanSteal(s, b) {
      if b !in s'.measured {
        var q :| VerifiedBy(s', q, b);
        assert VerifiedBy(s, q, b);
      }
    }
  }

  lemma FrozenTable(cfg: Config, s: State, e: Event)
    requires StartOk(cfg) && Shaped(s.tracker, PieceTotal(cfg)) && Frozen(cfg, s) && Enabled(cfg, s, e)
    requires IsTableEvent(e) && !e.AddRequest? && !e.TakeRequest?
    ensures Frozen(cfg, Next(cfg, s, e))
  {
    NoNewRequests(cfg, s, e);
    hide Next;
    var s' := Next(cfg, s, e);
    FewerThieves(s, s');
    hide All, CanSteal, Frozen, Next, IsLive;
    forall p: nat | Unfinished(cfg, s, p) ensures StaysPut(s, s', p) { NotNeeded(cfg, s, p); }
    StaysFrozen(cfg, s, s');
  }

  // A dying peer has no request for an unfinished piece.
  lemma FrozenDied(cfg: Config, s: State, a: Addr, hadError: bool)
    requires StartOk(cfg) && Shaped(s.tracker, PieceTotal(cfg)) && Frozen(cfg, s) && RequestsGiven(s.peers, s.given)
    requires forall g :: g in s.given ==> !Unfinished(cfg, s, g.1)
    ensures Frozen(cfg, Next(cfg, s, Died(a, hadError)))
  {
    hide HasRange, All, PeerDied, IsFinished;
    CancelKeeps(cfg, s, a);
    var s' := Next(cfg, s, Died(a, hadError));
    FewerThieves(s, s');
    hide Frozen, CanSteal, CancelAll;
    forall p: nat | Unfinished(cfg, s, p) ensures StaysPut(s, s', p) {
      NotNeeded(cfg, s, p);
      AskedWasGiven(cfg, s, a, p);
      NotGiven(cfg, s, p);
    }
    StaysFrozen(cfg, s, s');
  }

  lemma NotGiven(cfg: Config, s: State, p: nat)
    requires StartOk(cfg) && Shaped(s.tracker, PieceTotal(cfg))
    requires forall g :: g in s.given ==> !Unfinished(cfg, s, g.1)
    ensures IsGiven(s, p) ==> !Unfinished(cfg, s, p)
  {
    if a :| (a, p) in s.given {
      assert !Unfinished(cfg, s, (a, p).1);
    }
  }

  lemma AskedWasGiven(cfg: Config, s: State, a: Addr, p: nat)
    requires StartOk(cfg) && Shaped(s.tracker, PieceTotal(cfg)) && p < PieceTotal(cfg)
    requires RequestsGiven(s.peers, s.given)
    ensures AfterDeath(cfg, s, a).needed[p] ==> s.tracker.needed[p] || IsGiven(s, p)
  {
    hide HasRange, All;
    if AfterDeath(cfg, s, a).needed[p] && !s.tracker.needed[p] {
      var r :| r in s.peers.states[a].live.inflightRequests && r.0 == p;
      assert (a, r.0) in s.given;
    }
  }

  ghost predicate Doomed(cfg: Config, s: State)
    requires StartOk(cfg) && Shaped(s.tracker, PieceTotal(cfg))
  {
    !AllInReach(cfg, s) || Frozen(cfg, s)
  }

  lemma DoomedStep(cfg: Config, s: State, e: Event)
    requires StartOk(cfg) && Inv(cfg, s) && Tidy(s) && Doomed(cfg, s) && Enabled(cfg, s, e) && InTurn(s, e)
    ensures Doomed(cfg, Next(cfg, s, e))
  {
    assert Shaped(s.tracker, PieceTotal(cfg));
    hide HasRange, All, Inv, Tidy, Enabled, Next, Frozen, InTurn;
    if Frozen(cfg, s) {
      FrozenStep(cfg, s, e);
    } else {
      assert !AllInReach(cfg, s);
      var p: nat :| p < PieceTotal(cfg) && cfg.start.needed[p]
                    && (cfg.start.have[p] || p in s.lost || (!All(s.tracker.chunks[p]) && !HasRange(cfg.lengths, p)));
      if p in s.lost {
        StepKeepsLost(cfg, s, e, p);
      } else if !cfg.start.have[p] {
        RangelessStep(cfg, s, e, p);
      }
    }
  }

  lemma DoomedIsUnfinished(cfg: Config, events: seq<Event>, s: State)
    requires StartOk(cfg) && Reaches(cfg, events, s) && Shaped(s.tracker, PieceTotal(cfg)) && Doomed(cfg, s)
    ensures !IsFinished(cfg, s)
  {
    hide HasRange, All, Movable, IsFinished, Run, Orderly;
    RunKeepsInv(cfg, events, s);
    FinishedIff(cfg, events, s);
    forall p: nat | p < PieceTotal(cfg)
      ensures p in s.lost || !All(s.tracker.chunks[p]) ==> !s.tracker.have[p]
      ensures !All(s.tracker.chunks[p]) ==> cfg.start.needed[p]
    {
      assert PieceInv(cfg, s, p);
    }
    if Frozen(cfg, s) {
      var p :| Unfinished(cfg, s, p);
    }
  }

  lemma {:induction false} DoomedForever(cfg: Config, events: seq<Event>, s: State, events': seq<Event>, s': State)
    requires StartOk(cfg) && Reaches(cfg, events, s) && Continues(cfg, events, events', s') && Doomed(cfg, s)
    ensures Doomed(cfg, s')
    decreases |events'|
  {
    hide Doomed, Enabled, Next, InTurn, Inv, Tidy;
    if |events'| == |events| {
      assert events' == events;
    } else {
      var n := |events'| - 1;
      var before := Run(cfg, events'[..n]).value;
      DoomedForever(cfg, events, s, events'[..n], before);
      ReachedIsTidy(cfg, events'[..n], before);
      DoomedStep(cfg, before, events'[n]);
    }
  }

  // ---- what can finish ------------------------------------------------------------------

  // A peer becomes live, whatever state it is in; nothing else changes.
  lemma MakeLive(cfg: Config, events: seq<Event>, s: State, a: Addr) returns (events': seq<Event>, s': State)
    requires StartOk(cfg) && Reaches(cfg, events, s)
    ensures Reaches(cfg, events', s') && Peaceful(events, events')
    ensures s' == s.(peers := s'.peers) && OthersKept(s, s', a)
    ensures IsLive(s.peers, a) ==> s' == s
  {
    hide Reaches;
    if IsLive(s.peers, a) {
      events', s' := events, s;
    } else if a in s.peers.states && s.peers.states[a].Connecting? {
      events', s' := Do(cfg, events, s, PeerHandshake(a));
    } else {
      events', s' := Do(cfg, events, s, PeerIncoming(a));
    }
  }

  // Everything under verification is found good.
  lemma {:induction false} DrainVerifying(cfg: Config, events: seq<Event>, s: State)
    returns (events': seq<Event>, s': State)
    requires StartOk(cfg) && Reaches(cfg, events, s)
    ensures Reaches(cfg, events', s') && Peaceful(events, events')
    ensures s' == s.(tracker := s'.tracker, verifying := multiset{}, crediting := s.crediting + s.verifying)
    ensures s'.tracker == s.tracker.(have := s'.tracker.have)
    decreases |s.verifying|
  {
    hide Reaches, Inv, All, Tidy, Peaceful;
    ReachedIsTidy(cfg, events, s);
    if s.verifying == multiset{} {
      events', s' := events, s;
      assert Peaceful(events, events) by { PeacefulSelf(events); }
      assert s.crediting + s.verifying == s.crediting;
    } else {
      var q :| q in s.verifying;
      VerifiedIsPiece(cfg, s, q);
      events', s' := Do(cfg, events, s, VerifyOk(q));
      OneMore(events, VerifyOk(q));
      var done, crediting := events', s'.crediting;
      events', s' := DrainVerifying(cfg, events', s');
      PeacefulTwice(events, done, events');
      assert crediting + (s.verifying - multiset{q}) == s.crediting + s.verifying;
    }
  }

  lemma PeacefulSelf(events: seq<Event>)
    ensures Peaceful(events, events)
  {
  }

  lemma OneMore(events: seq<Event>, e: Event)
    requires !e.Died?
    ensures Peaceful(events, events + [e])
  {
  }

  lemma VerifiedIsPiece(cfg: Config, s: State, q: nat)
    requires StartOk(cfg) && Inv(cfg, s) && (q in s.verifying || q in s.crediting)
    ensures q < PieceTotal(cfg)
  {
  }

  // Every credit due is given, and so every thief to be is one.
  lemma {:induction false} DrainCrediting(cfg: Config, events: seq<Event>, s: State)
    returns (events': seq<Event>, s': State)
    requires StartOk(cfg) && Reaches(cfg, events, s) && s.verifying == multiset{}
    ensures Reaches(cfg, events', s') && Peaceful(events, events')
    ensures s' == s.(peers := s'.peers, crediting := multiset{}, downloaded := s'.downloaded, measured := s'.measured)
    ensures forall b :: CanSteal(s, b) ==> b in s'.measured
    decreases |s.crediting|
  {
    hide Reaches, Inv, All, Peaceful, IsLive;
    ReachedIsTidy(cfg, events, s);
    if s.crediting == multiset{} {
      events', s' := events, s;
      assert Peaceful(events, events) by { PeacefulSelf(events); }
    } else {
      var q :| q in s.crediting;
      VerifiedIsPiece(cfg, s, q);
      var s1: State;
      events', s1 := CreditOne(cfg, events, s, q);
      var done := events';
      events', s' := DrainCrediting(cfg, events', s1);
      PeacefulTwice(events, done, events');
      forall b | CanSteal(s, b) ensures b in s'.measured {
        StillThief(s, s1, q, b);
      }
    }
  }

  lemma StillThief(s: State, s1: State, q: nat, b: Addr)
    requires CanSteal(s, b) && s.verifying == multiset{} && q in s.crediting && q in s.verifier
    requires s1.crediting == s.crediting - multiset{q} && s1.verifier == s.verifier
    requires s.measured + {s.verifier[q]} <= s1.measured
    ensures CanSteal(s1, b)
  {
    if b !in s1.measured {
      var r :| VerifiedBy(s, r, b);
      assert r != q;
      assert VerifiedBy(s1, r, b);
    }
  }

  lemma CreditOne(cfg: Config, events: seq<Event>, s: State, q: nat) returns (events': seq<Event>, s': State)
    requires StartOk(cfg) && Reaches(cfg, events, s) && q in s.crediting && q < PieceTotal(cfg) && q in s.verifier
    ensures Reaches(cfg, events', s') && Peaceful(events, events')
    ensures s' == s.(peers := s'.peers, crediting := s.crediting - multiset{q}, downloaded := s'.downloaded,
                     measured := s.measured + {s.verifier[q]})
  {
    hide Reaches, Peaceful, PieceLength;
    var s1: State;
    events', s1 := MakeLive(cfg, events, s, s.verifier[q]);
    var done := events';
    events', s' := Do(cfg, events', s1, Credit(s.verifier[q], q));
    OneMore(done, Credit(s.verifier[q], q));
    PeacefulTwice(events, done, events');
  }

  // A connection that was given an unfinished piece asks for a chunk of it and ends: the
  // piece is needed again.
  lemma AskAndDie(cfg: Config, events: seq<Event>, s: State, a: Addr, p: nat) returns (events': seq<Event>, s': State)
    requires StartOk(cfg) && Reaches(cfg, events, s) && Shaped(s.tracker, PieceTotal(cfg))
    requires (a, p) in s.given && Unfinished(cfg, s, p) && HasRange(cfg.lengths, p)
    ensures Continues(cfg, events, events', s') && s'.tracker.needed[p]
    ensures s'.tracker == s.tracker.(needed := s'.tracker.needed) && |s'.tracker.needed| == |s.tracker.needed|
    ensures s'.verifying == s.verifying && s'.crediting == s.crediting && s'.lost == s.lost
    ensures s'.inflight == s.inflight
  {
    UnfinishedWasNeeded(cfg, events, s, p);
    hide Reaches, Inv, Tidy, All, HasRange, Next, HasRequest, IsLive;
    var s1: State, e1: seq<Event>;
    e1, s1 := Ask(cfg, events, s, a, p);
    DeathFrees(cfg, s1, a, p);
    assert Enabled(cfg, s1, Died(a, true)) && InTurn(s1, Died(a, true));
    hide Enabled, InTurn, Peaceful;
    events', s' := Do(cfg, e1, s1, Died(a, true));
    PrefixOf(events, e1, Died(a, true));
  }

  lemma PrefixOf(events: seq<Event>, events': seq<Event>, e: Event)
    requires Peaceful(events, events')
    ensures events <= events' + [e]
  {
  }

  lemma Ask(cfg: Config, events: seq<Event>, s: State, a: Addr, p: nat) returns (events': seq<Event>, s': State)
    requires StartOk(cfg) && Reaches(cfg, events, s) && Shaped(s.tracker, PieceTotal(cfg))
    requires (a, p) in s.given && p < PieceTotal(cfg)
    ensures Reaches(cfg, events', s') && Peaceful(events, events') && s' == s.(peers := s'.peers)
    ensures IsLive(s'.peers, a) && HasRequest(s'.peers.states[a].live.inflightRequests, p)
  {
    ReachedIsTidy(cfg, events, s);
    assert p in s.reserved by { assert (a, p) in s.given; }
    hide Reaches, Inv, Tidy, All, HasRange, Next, Peaceful;
    var s1: State, e1: seq<Event>;
    e1, s1 := MakeLive(cfg, events, s, a);
    RequestMade(cfg, s1, a, p, 0);
    events', s' := Do(cfg, e1, s1, AddRequest(a, p, 0));
    OneMore(e1, AddRequest(a, p, 0));
    PeacefulTwice(events, e1, events');
  }

  lemma RequestMade(cfg: Config, s: State, a: Addr, p: nat, c: nat)
    requires StartOk(cfg) && Shaped(s.tracker, PieceTotal(cfg)) && Enabled(cfg, s, AddRequest(a, p, c))
    ensures var s' := Next(cfg, s, AddRequest(a, p, c));
            && s' == s.(peers := s'.peers) && IsLive(s'.peers, a)
            && HasRequest(s'.peers.states[a].live.inflightRequests, p)
  {
    var s' := Next(cfg, s, AddRequest(a, p, c));
    assert (p, c) in s'.peers.states[a].live.inflightRequests;
  }

  lemma DeathFrees(cfg: Config, s: State, a: Addr, p: nat)
    requires StartOk(cfg) && Shaped(s.tracker, PieceTotal(cfg)) && Unfinished(cfg, s, p) && HasRange(cfg.lengths, p)
    requires IsLive(s.peers, a) && HasRequest(s.peers.states[a].live.inflightRequests, p) && !s.tracker.have[p]
    ensures var s' := Next(cfg, s, Died(a, true));
            && s'.tracker.needed[p] && s'.tracker == s.tracker.(needed := s'.tracker.needed)
            && |s'.tracker.needed| == |s.tracker.needed|
            && s'.verifying == s.verifying && s'.crediting == s.crediting && s'.lost == s.lost
            && s'.inflight == s.inflight
  {
    hide All, HasRange, HasRequest, PeerDied, IsFinished;
  }

  lemma FreshAddr(used: set<Addr>) returns (f: Addr)
    ensures f !in used && forall a :: a in used ==> a < f
  {
    if used == {} {
      f := 0;
    } else {
      var a :| a in used;
      f := FreshAddr(used - {a});
      if f <= a { f := a + 1; }
      forall b | b in used ensures b < f {
        if b != a { assert b in used - {a}; }
      }
    }
  }

  ghost predicate Quiet(s: State) { s.verifying == multiset{} && s.crediting == multiset{} }

  // With a needed unfinished piece a fresh peer gets that one, becomes a thief, and gets all
  // the others.
  lemma FromNeeded(cfg: Config, events: seq<Event>, s: State, p: nat) returns (events': seq<Event>, s': State)
    requires StartOk(cfg) && Reaches(cfg, events, s) && Shaped(s.tracker, PieceTotal(cfg)) && Quiet(s)
    requires AllInReach(cfg, s) && Unfinished(cfg, s, p) && s.tracker.needed[p]
    ensures Continues(cfg, events, events', s') && IsFinished(cfg, s')
  {
    UnfinishedWasNeeded(cfg, events, s, p);
    hide Reaches, All, HasRange, IsFinished;
    var f := FreshAddr(s.peers.states.Keys + s.inflight.Values);
    var s1: State, s2: State, e1: seq<Event>, e2: seq<Event>;
    e1, s1 := MakeLive(cfg, events, s, f);
    e2, s2 := DownloadPiece(cfg, e1, s1, f, p);
    StillInReach(cfg, s, s2, p);
    events', s' := CompleteFrom(cfg, e2, s2, f, 0);
  }

  lemma UnfinishedWasNeeded(cfg: Config, events: seq<Event>, s: State, p: nat)
    requires StartOk(cfg) && Reaches(cfg, events, s) && Shaped(s.tracker, PieceTotal(cfg)) && Unfinished(cfg, s, p)
    ensures cfg.start.needed[p] && !s.tracker.have[p]
    ensures s.tracker.needed[p] || (p in s.inflight && p in s.reserved)
  {
    RunKeepsInv(cfg, events, s);
    assert PieceInv(cfg, s, p);
  }

  // A live thief that holds nothing gets the pieces from k on.
  lemma {:induction false} CompleteFrom(cfg: Config, events: seq<Event>, s: State, f: Addr, k: nat)
    returns (events': seq<Event>, s': State)
    requires StartOk(cfg) && Reaches(cfg, events, s) && Shaped(s.tracker, PieceTotal(cfg)) && Quiet(s)
    requires AllInReach(cfg, s) && IsLive(s.peers, f) && f in s.measured && f !in s.inflight.Values
    requires k <= PieceTotal(cfg) && forall p: nat :: p < k ==> !Unfinished(cfg, s, p)
    ensures Continues(cfg, events, events', s') && IsFinished(cfg, s')
    decreases PieceTotal(cfg) - k
  {
    hide Reaches, All, HasRange, IsFinished;
    if k == PieceTotal(cfg) {
      events', s' := events, s;
      AllComplete(cfg, events, s);
    } else if !Unfinished(cfg, s, k) {
      events', s' := CompleteFrom(cfg, events, s, f, k + 1);
    } else {
      UnfinishedWasNeeded(cfg, events, s, k);
      var s1: State, done: seq<Event>;
      done, s1 := GetUnfinished(cfg, events, s, f, k);
      StillInReach(cfg, s, s1, k);
      events', s' := CompleteFrom(cfg, done, s1, f, k + 1);
    }
  }

  lemma StillInReach(cfg: Config, s: State, s': State, k: nat)
    requires StartOk(cfg) && Shaped(s.tracker, PieceTotal(cfg)) && Shaped(s'.tracker, PieceTotal(cfg))
    requires AllInReach(cfg, s) && s'.lost == s.lost && k < PieceTotal(cfg)
    requires s'.tracker.chunks == s.tracker.chunks[k := AllSet(|s.tracker.chunks[k]|)]
    ensures AllInReach(cfg, s')
    ensures forall p: nat :: p == k || !Unfinished(cfg, s, p) ==> !Unfinished(cfg, s', p)
  {
    hide All, HasRange;
  }

  // It downloads a needed piece, and steals one in flight.
  lemma GetUnfinished(cfg: Config, events: seq<Event>, s: State, f: Addr, p: nat)
    returns (events': seq<Event>, s': State)
    requires StartOk(cfg) && Reaches(cfg, events, s) && Shaped(s.tracker, PieceTotal(cfg)) && Quiet(s)
    requires Unfinished(cfg, s, p) && HasRange(cfg.lengths, p)
    requires IsLive(s.peers, f) && f in s.measured && f !in s.inflight.Values
    ensures Reaches(cfg, events', s') && Peaceful(events, events') && Shaped(s'.tracker, PieceTotal(cfg)) && Quiet(s')
    ensures IsLive(s'.peers, f) && f in s'.measured && f !in s'.inflight.Values && s'.lost == s.lost
    ensures s'.tracker.chunks == s.tracker.chunks[p := AllSet(|s.tracker.chunks[p]|)]
  {
    UnfinishedWasNeeded(cfg, events, s, p);
    hide Reaches, All, HasRange, Peaceful;
    if s.tracker.needed[p] {
      events', s' := DownloadPiece(cfg, events, s, f, p);
    } else {
      var s1: State;
      events', s1 := Do(cfg, events, s, Steal(f, p));
      OneMore(events, Steal(f, p));
      var done := events';
      events', s' := FinishHeld(cfg, events', s1, f, p);
      PeacefulTwice(events, done, events');
    }
  }

  lemma AllComplete(cfg: Config, events: seq<Event>, s: State)
    requires StartOk(cfg) && Reaches(cfg, events, s) && Shaped(s.tracker, PieceTotal(cfg)) && Quiet(s)
    requires AllInReach(cfg, s) && forall p: nat :: p < PieceTotal(cfg) ==> !Unfinished(cfg, s, p)
    ensures IsFinished(cfg, s)
  {
    hide HasRange, All, IsFinished, Run, Orderly;
    RunKeepsInv(cfg, events, s);
    FinishedIff(cfg, events, s);
    forall p: nat | p < PieceTotal(cfg) && cfg.start.needed[p] ensures s.tracker.have[p] {
      assert PieceInv(cfg, s, p) && !Unfinished(cfg, s, p) && s.verifying[p] == 0;
    }
  }

  // From a state that is not doomed.
  lemma GoOn(cfg: Config, events: seq<Event>, s: State) returns (events': seq<Event>, s': State)
    requires StartOk(cfg) && Reaches(cfg, events, s) && Shaped(s.tracker, PieceTotal(cfg)) && !Doomed(cfg, s)
    ensures Continues(cfg, events, events', s') && IsFinished(cfg, s')
  {
    hide Reaches, All, HasRange, IsFinished, CanSteal;
    var s1: State, e1: seq<Event>;
    e1, s1 := Settle(cfg, events, s);
    assert AllInReach(cfg, s1);
    if p: nat :| Unfinished(cfg, s, p) && Movable(s, p) {
      events', s' := FromMovable(cfg, e1, s1, p);
    } else {
      forall p: nat ensures !Unfinished(cfg, s1, p) { assert Unfinished(cfg, s1, p) == Unfinished(cfg, s, p); }
      events', s' := e1, s1;
      AllComplete(cfg, e1, s1);
    }
  }

  // Every verifier and every credit is done first.
  lemma Settle(cfg: Config, events: seq<Event>, s: State) returns (events': seq<Event>, s': State)
    requires StartOk(cfg) && Reaches(cfg, events, s) && Shaped(s.tracker, PieceTotal(cfg))
    ensures Reaches(cfg, events', s') && Peaceful(events, events') && Shaped(s'.tracker, PieceTotal(cfg)) && Quiet(s')
    ensures s'.tracker.needed == s.tracker.needed && s'.tracker.chunks == s.tracker.chunks
    ensures s'.inflight == s.inflight && s'.given == s.given && s'.lost == s.lost
    ensures forall b :: CanSteal(s, b) ==> b in s'.measured
  {
    hide Reaches, All, HasRange, IsFinished, CanSteal;
    var s1: State, e1: seq<Event>;
    e1, s1 := DrainVerifying(cfg, events, s);
    SameThieves(s, s1);
    events', s' := DrainCrediting(cfg, e1, s1);
    ReachedShape(cfg, events', s');
    PeacefulTwice(events, e1, events');
  }

  lemma FromMovable(cfg: Config, events: seq<Event>, s: State, p: nat) returns (events': seq<Event>, s': State)
    requires StartOk(cfg) && Reaches(cfg, events, s) && Shaped(s.tracker, PieceTotal(cfg)) && Quiet(s)
    requires AllInReach(cfg, s) && Unfinished(cfg, s, p)
    requires || s.tracker.needed[p] || IsGiven(s, p)
             || (p in s.inflight && exists b :: b in s.measured && b != s.inflight[p])
    ensures Continues(cfg, events, events', s') && IsFinished(cfg, s')
  {
    UnfinishedWasNeeded(cfg, events, s, p);
    hide Reaches, All, HasRange, IsFinished, IsGiven;
    if s.tracker.needed[p] {
      events', s' := FromNeeded(cfg, events, s, p);
    } else {
      var s1: State, e1: seq<Event>;
      e1, s1 := Free(cfg, events, s, p);
      assert AllInReach(cfg, s1);
      events', s' := FromNeeded(cfg, e1, s1, p);
    }
  }

  lemma SameThieves(s: State, s1: State)
    requires s1.measured == s.measured && s1.verifier == s.verifier && s1.verifying == multiset{}
    requires s1.crediting == s.crediting + s.verifying
    ensures forall b :: CanSteal(s, b) ==> CanSteal(s1, b)
  {
    forall b | CanSteal(s, b) ensures CanSteal(s1, b) {
      if b !in s.measured {
        var q :| VerifiedBy(s, q, b);
        assert VerifiedBy(s1, q, b);
      }
    }
  }

  // A piece in flight is made needed by its connection, or by a thief's.
  lemma Free(cfg: Config, events: seq<Event>, s: State, p: nat) returns (events': seq<Event>, s': State)
    requires StartOk(cfg) && Reaches(cfg, events, s) && Shaped(s.tracker, PieceTotal(cfg)) && Quiet(s)
    requires Unfinished(cfg, s, p) && HasRange(cfg.lengths, p)
    requires IsGiven(s, p) || (p in s.inflight && exists b :: b in s.measured && b != s.inflight[p])
    ensures Continues(cfg, events, events', s') && Shaped(s'.tracker, PieceTotal(cfg)) && Quiet(s')
    ensures s'.tracker.needed[p] && s'.tracker.chunks == s.tracker.chunks && s'.lost == s.lost
  {
    hide Reaches, All, HasRange;
    if a :| (a, p) in s.given {
      events', s' := AskAndDie(cfg, events, s, a, p);
    } else {
      var b :| b in s.measured && b != s.inflight[p];
      var s1: State, e1: seq<Event>;
      e1, s1 := Do(cfg, events, s, Steal(b, p));
      events', s' := AskAndDie(cfg, e1, s1, b, p);
    }
  }

  // From a state of an orderly run the session can still finish if and only if no initially
  // needed piece is beyond it and, if any is unfinished, one of those can move: it is needed,
  // an open connection was given it, or somebody other than its holder can steal.
  lemma CanStillFinishIff(cfg: Config, events: seq<Event>, s: State)
    requires StartOk(cfg) && Reaches(cfg, events, s)
    ensures Shaped(s.tracker, PieceTotal(cfg))
    ensures (exists events', s' :: Continues(cfg, events, events', s') && IsFinished(cfg, s')) <==>
            && AllInReach(cfg, s)
            && ((forall p: nat :: !Unfinished(cfg, s, p)) || exists p: nat :: Unfinished(cfg, s, p) && Movable(s, p))
  {
    hide IsFinished, AllInReach, Movable;
    ReachedShape(cfg, events, s);
    if !Doomed(cfg, s) {
      var events', s' := GoOn(cfg, events, s);
    }
    if events', s' :| Continues(cfg, events, events', s') && IsFinished(cfg, s') {
      if Doomed(cfg, s) {
        DoomedForever(cfg, events, s, events', s');
        DoomedIsUnfinished(cfg, events', s');
      }
    }
  }

  // ---- connections that end in order ----------------------------------------------------

  // A connection that holds an unfinished piece which nobody else is to fetch has a request
  // for it open. A requester adds the request for the next chunk before it waits for
  // anything, so this is so at any moment a connection can end, as long as the other side
  // answers only what it was sent and nobody is disconnected before the torrent is finished.
  ghost predicate HeldAreAsked(s: State, a: Addr)
    requires |s.tracker.needed| == |s.tracker.chunks|
  {
    forall p :: p in s.inflight && s.inflight[p] == a && p < |s.tracker.chunks|
                && !s.tracker.needed[p] && !All(s.tracker.chunks[p]) ==>
      IsLive(s.peers, a) && HasRequest(s.peers.states[a].live.inflightRequests, p)
  }

  ghost predicate Diligent(cfg: Config, events: seq<Event>)
    requires StartOk(cfg)
  {
    events == [] ||
    var before, e := events[..|events| - 1], events[|events| - 1];
    Diligent(cfg, before) && (Run(cfg, before).Some? && e.Died? ==> HeldAreAsked(Run(cfg, before).value, e.a))
  }

  lemma {:induction false} PeacefulIsDiligent(cfg: Config, events: seq<Event>, events': seq<Event>)
    requires StartOk(cfg) && Diligent(cfg, events) && Peaceful(events, events')
    ensures Diligent(cfg, events')
    decreases |events'|
  {
    if |events'| == |events| {
      assert events' == events;
    } else {
      var n := |events'| - 1;
      assert Peaceful(events, events'[..n]);
      PeacefulIsDiligent(cfg, events, events'[..n]);
    }
  }

  // An unfinished piece is needed, or the connection that holds it is open.
  ghost predicate HoldersOpen(cfg: Config, s: State)
    requires StartOk(cfg) && Shaped(s.tracker, PieceTotal(cfg))
  {
    forall p: nat :: Unfinished(cfg, s, p) ==> s.tracker.needed[p] || HolderOpen(s, p)
  }

  ghost predicate HolderOpen(s: State, p: nat) { p in s.inflight && (s.inflight[p], p) in s.given }

  lemma {:induction false} DiligentHoldersOpen(cfg: Config, events: seq<Event>, s: State)
    requires StartOk(cfg) && Finishable(cfg) && Reaches(cfg, events, s) && Diligent(cfg, events)
    ensures Shaped(s.tracker, PieceTotal(cfg)) && HoldersOpen(cfg, s)
  {
    hide HoldersOpen, Next, Enabled, InTurn, HeldAreAsked, Finishable, Inv;
    ReachedShape(cfg, events, s);
    if events == [] {
      assert HoldersOpen(cfg, Initial(cfg)) by { OpenAtStart(cfg); }
    } else {
      var n := |events| - 1;
      var before := Run(cfg, events[..n]).value;
      DiligentHoldersOpen(cfg, events[..n], before);
      RunKeepsInv(cfg, events[..n], before);
      OpenStep(cfg, before, events[n]);
    }
  }

  lemma OpenAtStart(cfg: Config)
    requires StartOk(cfg)
    ensures HoldersOpen(cfg, Initial(cfg))
  {
  }

  lemma OpenStep(cfg: Config, s: State, e: Event)
    requires StartOk(cfg) && Finishable(cfg) && Inv(cfg, s) && HoldersOpen(cfg, s) && Enabled(cfg, s, e) && InTurn(s, e)
    requires e.Died? ==> HeldAreAsked(s, e.a)
    ensures HoldersOpen(cfg, Next(cfg, s, e))
  {
    assert Shaped(s.tracker, PieceTotal(cfg));
    hide HoldersOpen, Next, Inv, HeldAreAsked, Finishable;
    match e
    case Reserve(a, p) => OpenTaken(cfg, s, e);
    case Steal(a, p) => OpenTaken(cfg, s, e);
    case ChunkArrived(a, p, c) => OpenChunk(cfg, s, a, p, c);
    case Died(a, hadError) => OpenDied(cfg, s, a, hadError);
    case AddRequest(a, p, c) => OpenOther(cfg, s, e);
    case TakeRequest(a, p, c) => OpenOther(cfg, s, e);
    case VerifyOk(p) => OpenOther(cfg, s, e);
    case VerifyAborted(p) => OpenOther(cfg, s, e);
    case Credit(a, p) => OpenOther(cfg, s, e);
    case _ => OpenTable(cfg, s, e);
  }

  lemma OpenTaken(cfg: Config, s: State, e: Event)
    requires StartOk(cfg) && Shaped(s.tracker, PieceTotal(cfg)) && HoldersOpen(cfg, s) && Enabled(cfg, s, e)
    requires e.Reserve? || e.Steal?
    ensures HoldersOpen(cfg, Next(cfg, s, e))
  {
    hide All, HasRange, IsNextNeeded;
  }

  lemma OpenChunk(cfg: Config, s: State, a: Addr, p: nat, c: nat)
    requires StartOk(cfg) && Shaped(s.tracker, PieceTotal(cfg)) && HoldersOpen(cfg, s)
    requires Enabled(cfg, s, ChunkArrived(a, p, c))
    ensures HoldersOpen(cfg, Next(cfg, s, ChunkArrived(a, p, c)))
  {
    hide HasRange, HolderOpen;
    var s' := Next(cfg, s, ChunkArrived(a, p, c));
    forall q: nat | Unfinished(cfg, s', q) ensures s'.tracker.needed[q] || HolderOpen(s', q) {
      SetBitsStay(s.tracker, s'.tracker, p, c, q);
      assert Unfinished(cfg, s, q);
      StillHeld(s, s', p, q);
    }
  }

  lemma SetBitsStay(t: Tracker, t': Tracker, p: nat, c: nat, q: nat)
    requires |t.chunks| == |t'.chunks| && p < |t.chunks| && c < |t.chunks[p]| && q < |t.chunks|
    requires t' == t || t' == t.(chunks := t.chunks[p := t.chunks[p][c := true]])
    ensures All(t.chunks[q]) ==> All(t'.chunks[q])
  {
  }

  lemma StillHeld(s: State, s': State, p: nat, q: nat)
    requires s'.given == s.given && q < |s.tracker.needed|
    requires s'.inflight == s.inflight || (q != p && s'.inflight == s.inflight - {p})
    ensures HolderOpen(s, q) ==> HolderOpen(s', q)
  {
  }

  lemma OpenOther(cfg: Config, s: State, e: Event)
    requires StartOk(cfg) && Shaped(s.tracker, PieceTotal(cfg)) && HoldersOpen(cfg, s) && Enabled(cfg, s, e)
    requires e.AddRequest? || e.TakeRequest? || e.VerifyOk? || e.VerifyAborted? || e.Credit?
    ensures HoldersOpen(cfg, Next(cfg, s, e))
  {
    hide All, HasRange, IsLive;
  }

  lemma OpenTable(cfg: Config, s: State, e: Event)
    requires StartOk(cfg) && Shaped(s.tracker, PieceTotal(cfg)) && HoldersOpen(cfg, s) && Enabled(cfg, s, e)
    requires IsTableEvent(e) && !e.AddRequest? && !e.TakeRequest?
    ensures HoldersOpen(cfg, Next(cfg, s, e))
  {
    NoNewRequests(cfg, s, e);
    hide Next, All, IsLive;
  }

  // The end of the holder's connection makes what it held needed again.
  lemma OpenDied(cfg: Config, s: State, a: Addr, hadError: bool)
    requires StartOk(cfg) && Finishable(cfg) && Inv(cfg, s) && HoldersOpen(cfg, s) && HeldAreAsked(s, a)
    ensures HoldersOpen(cfg, Next(cfg, s, Died(a, hadError)))
  {
    var s' := Next(cfg, s, Died(a, hadError));
    CancelKeeps(cfg, s, a);
    assert s'.tracker == AfterDeath(cfg, s, a);
    forall p: nat | Unfinished(cfg, s', p) ensures s'.tracker.needed[p] || HolderOpen(s', p) {
      assert Unfinished(cfg, s, p) && PieceInv(cfg, s, p);
      if !s.tracker.needed[p] && s.inflight[p] == a {
        HeldIsFreed(cfg, s, a, p);
      }
    }
  }

  lemma HeldIsFreed(cfg: Config, s: State, a: Addr, p: nat)
    requires StartOk(cfg) && Finishable(cfg) && Shaped(s.tracker, PieceTotal(cfg)) && HeldAreAsked(s, a)
    requires Unfinished(cfg, s, p) && PieceInv(cfg, s, p) && !s.tracker.needed[p]
    requires p in s.inflight && s.inflight[p] == a
    ensures AfterDeath(cfg, s, a).needed[p]
  {
    hide HasRange, HasRequest;
  }

  // The pieces from k on, without any connection ending: needed ones by some peer, the
  // others by their holders.
  lemma {:induction false} CompletePeacefully(cfg: Config, events: seq<Event>, s: State, k: nat)
    returns (events': seq<Event>, s': State)
    requires StartOk(cfg) && Reaches(cfg, events, s) && Shaped(s.tracker, PieceTotal(cfg)) && Quiet(s)
    requires AllInReach(cfg, s) && HoldersOpen(cfg, s)
    requires k <= PieceTotal(cfg) && forall p: nat :: p < k ==> !Unfinished(cfg, s, p)
    ensures Reaches(cfg, events', s') && Peaceful(events, events') && IsFinished(cfg, s')
    decreases PieceTotal(cfg) - k
  {
    hide Reaches, All, HasRange, IsFinished, Peaceful, HoldersOpen;
    if k == PieceTotal(cfg) {
      events', s' := events, s;
      PeacefulSelf(events);
      AllComplete(cfg, events, s);
    } else if !Unfinished(cfg, s, k) {
      events', s' := CompletePeacefully(cfg, events, s, k + 1);
    } else {
      UnfinishedWasNeeded(cfg, events, s, k);
      var s1: State, done: seq<Event>;
      done, s1 := GetOrFinish(cfg, events, s, k);
      StillInReach(cfg, s, s1, k);
      events', s' := CompletePeacefully(cfg, done, s1, k + 1);
      PeacefulTwice(events, done, events');
    }
  }

  lemma GetOrFinish(cfg: Config, events: seq<Event>, s: State, p: nat) returns (events': seq<Event>, s': State)
    requires StartOk(cfg) && Reaches(cfg, events, s) && Shaped(s.tracker, PieceTotal(cfg)) && Quiet(s)
    requires Unfinished(cfg, s, p) && HasRange(cfg.lengths, p) && HoldersOpen(cfg, s)
    ensures Reaches(cfg, events', s') && Peaceful(events, events') && Shaped(s'.tracker, PieceTotal(cfg)) && Quiet(s')
    ensures s'.lost == s.lost && HoldersOpen(cfg, s')
    ensures s'.tracker.chunks == s.tracker.chunks[p := AllSet(|s.tracker.chunks[p]|)]
  {
    UnfinishedWasNeeded(cfg, events, s, p);
    assert s.tracker.needed[p] || HolderOpen(s, p);
    hide Reaches, All, HasRange, Peaceful, HoldersOpen;
    var a := if s.tracker.needed[p] then 0 else s.inflight[p];
    var s1: State, e1: seq<Event>;
    e1, s1 := MakeLive(cfg, events, s, a);
    if s.tracker.needed[p] {
      events', s' := DownloadPiece(cfg, e1, s1, a, p);
    } else {
      events', s' := FinishHeld(cfg, e1, s1, a, p);
    }
    PeacefulTwice(events, e1, events');
    OthersStayOpen(cfg, s, s', p);
  }

  lemma OthersStayOpen(cfg: Config, s: State, s': State, p: nat)
    requires StartOk(cfg) && Shaped(s.tracker, PieceTotal(cfg)) && Shaped(s'.tracker, PieceTotal(cfg))
    requires HoldersOpen(cfg, s) && p < PieceTotal(cfg) && s'.inflight == s.inflight - {p} && s.given <= s'.given
    requires s'.tracker.chunks == s.tracker.chunks[p := AllSet(|s.tracker.chunks[p]|)]
    requires forall q: nat :: q < PieceTotal(cfg) && q != p ==> s'.tracker.needed[q] == s.tracker.needed[q]
    ensures HoldersOpen(cfg, s')
  {
    hide All;
    forall q: nat | Unfinished(cfg, s', q) ensures s'.tracker.needed[q] || HolderOpen(s', q) {
      assert q != p;
      assert Unfinished(cfg, s, q);
    }
  }

  // When connections end in that order, a session that could finish at its start can finish
  // at every moment, unless a verifier was stopped.
  lemma DiligentCanFinishIff(cfg: Config, events: seq<Event>, s: State)
    requires StartOk(cfg) && Reaches(cfg, events, s) && Diligent(cfg, events)
    ensures (exists events', s' ::
               Continues(cfg, events, events', s') && Diligent(cfg, events') && IsFinished(cfg, s')) <==>
            Finishable(cfg) && s.lost == {}
  {
    hide IsFinished, HoldersOpen, Diligent, Orderly, Run, Finishable, AllInReach;
    ReachedShape(cfg, events, s);
    if Finishable(cfg) && s.lost == {} {
      var events', s' := FinishDiligently(cfg, events, s);
    }
    if events', s' :| Continues(cfg, events, events', s') && IsFinished(cfg, s') {
      FinishedWasFinishable(cfg, events', s');
      if s.lost != {} {
        LostIsDoomed(cfg, events, s);
        DoomedForever(cfg, events, s, events', s');
        DoomedIsUnfinished(cfg, events', s');
      }
    }
  }

  lemma LostIsDoomed(cfg: Config, events: seq<Event>, s: State)
    requires StartOk(cfg) && Reaches(cfg, events, s) && s.lost != {}
    ensures Shaped(s.tracker, PieceTotal(cfg)) && Doomed(cfg, s)
  {
    RunKeepsInv(cfg, events, s);
    var p :| p in s.lost;
    assert PieceInv(cfg, s, p);
  }

  lemma FinishDiligently(cfg: Config, events: seq<Event>, s: State) returns (events': seq<Event>, s': State)
    requires StartOk(cfg) && Reaches(cfg, events, s) && Diligent(cfg, events) && Finishable(cfg) && s.lost == {}
    ensures Continues(cfg, events, events', s') && Diligent(cfg, events') && IsFinished(cfg, s')
  {
    DiligentHoldersOpen(cfg, events, s);
    ReachIsFinishable(cfg, s);
    hide IsFinished, Diligent, Reaches, Finishable, All, HasRange, CanSteal;
    var s1: State, e1: seq<Event>;
    e1, s1 := Settle(cfg, events, s);
    events', s' := CompletePeacefully(cfg, e1, s1, 0);
    PeacefulTwice(events, e1, events');
    PeacefulIsDiligent(cfg, events, events');
  }

  lemma ReachIsFinishable(cfg: Config, s: State)
    requires StartOk(cfg) && Shaped(s.tracker, PieceTotal(cfg)) && Finishable(cfg) && s.lost == {}
    ensures AllInReach(cfg, s)
  {
    hide HasRange;
  }
}
