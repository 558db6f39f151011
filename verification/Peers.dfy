// The peer table of a live torrent and its per-state counters:
// live/peer/mod.rs, live/peers/mod.rs and live/peers/stats/atomic.rs.
//
// Each operation exists twice: as a function on a `PeerTable` value, which the
// download protocol runs on, and as a method of `PeerStates`, which changes the
// table in place and is proved to do what the function says.
module Peers {
  import opened Wrappers

  type Addr = nat

  // A chunk we asked a peer for: (piece, chunk index in the piece).
  type InflightRequest = (nat, nat)

  datatype LivePeer = LivePeer(peerInterested: bool, bitfield: seq<bool>, inflightRequests: set<InflightRequest>)

  datatype PeerState = Queued | Connecting | Live(live: LivePeer) | Dead | NotNeeded

  datatype Kind = KindQueued | KindConnecting | KindLive | KindDead | KindNotNeeded

  const NEW_LIVE_PEER := LivePeer(false, [], {})

  function KindOf(s: PeerState): Kind {
    match s
    case Queued => KindQueued
    case Connecting => KindConnecting
    case Live(_) => KindLive
    case Dead => KindDead
    case NotNeeded => KindNotNeeded
  }

  datatype Counters = Counters(queued: int, connecting: int, live: int, dead: int, notNeeded: int, seen: int)
  {
    function Get(k: Kind): int {
      match k
      case KindQueued => queued
      case KindConnecting => connecting
      case KindLive => live
      case KindDead => dead
      case KindNotNeeded => notNeeded
    }

    function Add(k: Kind, d: int): Counters {
      match k
      case KindQueued => this.(queued := queued + d)
      case KindConnecting => this.(connecting := connecting + d)
      case KindLive => this.(live := live + d)
      case KindDead => this.(dead := dead + d)
      case KindNotNeeded => this.(notNeeded := notNeeded + d)
    }
  }

  datatype PeerTable = PeerTable(states: map<Addr, PeerState>, stats: Counters)

  const EMPTY_TABLE := PeerTable(map[], Counters(0, 0, 0, 0, 0, 0))

  // ---- operations on the table --------------------------------------------------------

  // `PeerStateNoMut::set`: decrement the old state's counter, increment the new one's.
  function SetState(t: PeerTable, a: Addr, s: PeerState): PeerTable
    requires a in t.states
  {
    PeerTable(t.states[a := s], t.stats.Add(KindOf(t.states[a]), -1).Add(KindOf(s), 1))
  }

  // `PeerStateNoMut::take` leaves the default state, `Queued`, behind.
  function Take(t: PeerTable, a: Addr): PeerTable
    requires a in t.states
  {
    SetState(t, a, Queued)
  }

  function AddIfNotSeen(t: PeerTable, a: Addr): PeerTable {
    if a in t.states then t
    else PeerTable(t.states[a := Queued], t.stats.Add(KindQueued, 1).(seen := t.stats.seen + 1))
  }

  function DropPeer(t: PeerTable, a: Addr): PeerTable {
    if a in t.states then PeerTable(t.states - {a}, t.stats.Add(KindOf(t.states[a]), -1)) else t
  }

  function QueuedToConnecting(t: PeerTable, a: Addr): PeerTable {
    if a in t.states && t.states[a].Queued? then SetState(t, a, Connecting) else t
  }

  function ConnectingToLive(t: PeerTable, a: Addr): PeerTable {
    if a in t.states && t.states[a].Connecting? then SetState(Take(t, a), a, Live(NEW_LIVE_PEER)) else t
  }

  // An incoming connection makes an idle or unknown peer live, and is refused while
  // the peer is connecting or live.
  function IncomingConnection(t: PeerTable, a: Addr): PeerTable {
    if a !in t.states then
      PeerTable(t.states[a := Live(NEW_LIVE_PEER)], t.stats.(seen := t.stats.seen + 1).Add(KindLive, 1))
    else if t.states[a].Connecting? || t.states[a].Live? then t
    else SetState(Take(t, a), a, Live(NEW_LIVE_PEER))
  }

  function SetNotNeeded(t: PeerTable, a: Addr): PeerTable {
    if a in t.states then SetState(t, a, NotNeeded) else t
  }

  function DeadToQueued(t: PeerTable, a: Addr): PeerTable {
    if a in t.states && t.states[a].Dead? then SetState(t, a, Queued) else t
  }

  // `with_live_mut`: change the live state of a live peer, leaving its kind alone.
  function UpdateLive(t: PeerTable, a: Addr, live: LivePeer): PeerTable
    requires a in t.states && t.states[a].Live?
  {
    t.(states := t.states[a := Live(live)])
  }

  // The table after `on_peer_died`, apart from the later backoff steps. `hadError` is
  // false when we closed the connection ourselves.
  function PeerDied(t: PeerTable, a: Addr, hadError: bool, finished: bool): PeerTable {
    if a !in t.states then t
    else match t.states[a]
      case NotNeeded => SetState(Take(t, a), a, NotNeeded)
      case Queued => DropPeer(Take(t, a), a)
      case Dead => DropPeer(Take(t, a), a)
      case _ => SetState(Take(t, a), a, if hadError && !finished then Dead else NotNeeded)
  }

  // ---- the counters count -------------------------------------------------------------

  ghost function PeersIn(states: map<Addr, PeerState>, k: Kind): set<Addr> {
    set a | a in states && KindOf(states[a]) == k
  }

  // Each counter is the number of peers in its state.
  ghost predicate CountersMatch(t: PeerTable) {
    forall k: Kind :: t.stats.Get(k) == |PeersIn(t.states, k)|
  }

  // The five counters together count every peer, and none is ever negative.
  lemma CountersPartitionPeers(t: PeerTable)
    requires CountersMatch(t)
    ensures t.stats.queued + t.stats.connecting + t.stats.live + t.stats.dead + t.stats.notNeeded == |t.states|
    ensures forall k: Kind :: t.stats.Get(k) >= 0
    ensures forall a :: a in t.states ==> t.stats.Get(KindOf(t.states[a])) >= 1
    ensures t.stats.queued == |set a | a in t.states && t.states[a].Queued?|
    ensures t.stats.connecting == |set a | a in t.states && t.states[a].Connecting?|
    ensures t.stats.live == |set a | a in t.states && t.states[a].Live?|
    ensures t.stats.dead == |set a | a in t.states && t.states[a].Dead?|
    ensures t.stats.notNeeded == |set a | a in t.states && t.states[a].NotNeeded?|
  {
    KindsAreStates(t.states);
    AllKindsCovered(t.states);
    assert t.stats.Get(KindQueued) == |PeersIn(t.states, KindQueued)|;
    assert t.stats.Get(KindConnecting) == |PeersIn(t.states, KindConnecting)|;
    assert t.stats.Get(KindLive) == |PeersIn(t.states, KindLive)|;
    assert t.stats.Get(KindDead) == |PeersIn(t.states, KindDead)|;
    assert t.stats.Get(KindNotNeeded) == |PeersIn(t.states, KindNotNeeded)|;
    forall a | a in t.states ensures t.stats.Get(KindOf(t.states[a])) >= 1 {
      var s := PeersIn(t.states, KindOf(t.states[a]));
      assert a in s && {a} <= s;
      SubsetSize({a}, s);
    }
  }

  lemma KindsAreStates(states: map<Addr, PeerState>)
    ensures PeersIn(states, KindQueued) == set a | a in states && states[a].Queued?
    ensures PeersIn(states, KindConnecting) == set a | a in states && states[a].Connecting?
    ensures PeersIn(states, KindLive) == set a | a in states && states[a].Live?
    ensures PeersIn(states, KindDead) == set a | a in states && states[a].Dead?
    ensures PeersIn(states, KindNotNeeded) == set a | a in states && states[a].NotNeeded?
  {
  }

  lemma AllKindsCovered(states: map<Addr, PeerState>)
    ensures |states| == |PeersIn(states, KindQueued)| + |PeersIn(states, KindConnecting)| + |PeersIn(states, KindLive)|
                        + |PeersIn(states, KindDead)| + |PeersIn(states, KindNotNeeded)|
  {
    var q, c, l := PeersIn(states, KindQueued), PeersIn(states, KindConnecting), PeersIn(states, KindLive);
    var d, n := PeersIn(states, KindDead), PeersIn(states, KindNotNeeded);
    assert q !! c && (q + c) !! l && (q + c + l) !! d && (q + c + l + d) !! n;
    assert states.Keys == q + c + l + d + n by {
      forall a ensures a in states.Keys <==> a in q + c + l + d + n {}
    }
  }

  lemma SubsetSize<T>(a: set<T>, b: set<T>)
    requires a <= b
    ensures |a| <= |b|
  {
    assert b == a + (b - a);
  }

  lemma AddThenGet(c: Counters, k: Kind, d: int)
    ensures forall j: Kind :: c.Add(k, d).Get(j) == c.Get(j) + (if j == k then d else 0)
  {
    forall j: Kind ensures c.Add(k, d).Get(j) == c.Get(j) + (if j == k then d else 0) {
      match k { case KindQueued => case KindConnecting => case KindLive => case KindDead => case KindNotNeeded => }
    }
  }

  lemma RemovePeerCounts(states: map<Addr, PeerState>, a: Addr, k: Kind)
    requires a in states
    ensures |PeersIn(states - {a}, k)| == |PeersIn(states, k)| - (if KindOf(states[a]) == k then 1 else 0)
  {
    var rest := PeersIn(states - {a}, k);
    assert PeersIn(states, k) == if KindOf(states[a]) == k then rest + {a} else rest;
  }

  lemma InsertPeerCounts(states: map<Addr, PeerState>, a: Addr, s: PeerState, k: Kind)
    requires a !in states
    ensures |PeersIn(states[a := s], k)| == |PeersIn(states, k)| + (if KindOf(s) == k then 1 else 0)
  {
    var rest := PeersIn(states, k);
    assert PeersIn(states[a := s], k) == if KindOf(s) == k then rest + {a} else rest;
  }

  lemma DropCounts(t: PeerTable, a: Addr)
    requires CountersMatch(t)
    ensures CountersMatch(DropPeer(t, a))
  {
    if a in t.states {
      var t' := DropPeer(t, a);
      AddThenGet(t.stats, KindOf(t.states[a]), -1);
      forall k: Kind ensures t'.stats.Get(k) == |PeersIn(t'.states, k)| {
        RemovePeerCounts(t.states, a, k);
      }
    }
  }

  lemma InsertCounts(t: PeerTable, a: Addr, s: PeerState)
    requires CountersMatch(t) && a !in t.states
    ensures CountersMatch(PeerTable(t.states[a := s], t.stats.Add(KindOf(s), 1)))
  {
    var t' := PeerTable(t.states[a := s], t.stats.Add(KindOf(s), 1));
    AddThenGet(t.stats, KindOf(s), 1);
    forall k: Kind ensures t'.stats.Get(k) == |PeersIn(t'.states, k)| {
      InsertPeerCounts(t.states, a, s, k);
    }
  }

  lemma SetStateCounts(t: PeerTable, a: Addr, s: PeerState)
    requires CountersMatch(t) && a in t.states
    ensures CountersMatch(SetState(t, a, s))
  {
    DropCounts(t, a);
    InsertCounts(DropPeer(t, a), a, s);
    assert (t.states - {a})[a := s] == t.states[a := s];
  }

  lemma SeenIsFree(t: PeerTable, seen: int)
    requires CountersMatch(t)
    ensures CountersMatch(t.(stats := t.stats.(seen := seen)))
  {
    var t' := t.(stats := t.stats.(seen := seen));
    forall k: Kind ensures t'.stats.Get(k) == |PeersIn(t'.states, k)| {
      assert t'.stats.Get(k) == t.stats.Get(k);
    }
  }

  lemma UpdateLiveCounts(t: PeerTable, a: Addr, live: LivePeer)
    requires CountersMatch(t) && a in t.states && t.states[a].Live?
    ensures CountersMatch(UpdateLive(t, a, live))
  {
    var t' := UpdateLive(t, a, live);
    forall k: Kind ensures t'.stats.Get(k) == |PeersIn(t'.states, k)| {
      assert t.stats.Get(k) == |PeersIn(t.states, k)|;
      assert PeersIn(t'.states, k) == PeersIn(t.states, k);
    }
  }

  // Every operation keeps every counter exact, including between the decrement and
  // the increment of two successive state changes.
  lemma OperationsKeepCounters(t: PeerTable, a: Addr, hadError: bool, finished: bool)
    requires CountersMatch(t)
    ensures CountersMatch(AddIfNotSeen(t, a))
    ensures CountersMatch(DropPeer(t, a))
    ensures CountersMatch(QueuedToConnecting(t, a))
    ensures CountersMatch(ConnectingToLive(t, a))
    ensures CountersMatch(IncomingConnection(t, a))
    ensures CountersMatch(SetNotNeeded(t, a))
    ensures CountersMatch(DeadToQueued(t, a))
    ensures CountersMatch(PeerDied(t, a, hadError, finished))
  {
    DropCounts(t, a);
    if a in t.states {
      SetStateCounts(t, a, Queued);
      SetStateCounts(t, a, Connecting);
      SetStateCounts(t, a, NotNeeded);
      SetStateCounts(Take(t, a), a, Live(NEW_LIVE_PEER));
      SetStateCounts(Take(t, a), a, NotNeeded);
      SetStateCounts(Take(t, a), a, Dead);
      DropCounts(Take(t, a), a);
    } else {
      InsertCounts(t, a, Queued);
      SeenIsFree(PeerTable(t.states[a := Queued], t.stats.Add(KindQueued, 1)), t.stats.seen + 1);
      SeenIsFree(t, t.stats.seen + 1);
      InsertCounts(t.(stats := t.stats.(seen := t.stats.seen + 1)), a, Live(NEW_LIVE_PEER));
    }
  }

  predicate IsLive(t: PeerTable, a: Addr) { a in t.states && t.states[a].Live? }

  // What becomes of the peers when one of them dies: a live or connecting one is to be
  // queued again or is not needed, one that was not needed stays so, one that was queued
  // or dead is dropped.
  ghost predicate Settled(was: map<Addr, PeerState>, now: map<Addr, PeerState>, a: Addr, again: bool) {
    && (a !in was ==> now == was)
    && (a in was && (was[a].Connecting? || was[a].Live?) ==> now == was[a := if again then Dead else NotNeeded])
    && (a in was && was[a].NotNeeded? ==> now == was)
    && (a in was && (was[a].Queued? || was[a].Dead?) ==> now == was - {a})
  }

  // ---- what becomes of a peer that dies --------------------------------------------------

  // A connection or an attempt at one that fails with an error while pieces are missing
  // leaves a peer that is queued again later. Nothing else does: without an error, or with
  // nothing left to download, the peer is not needed; one that was not needed stays so; one
  // that was queued or dead is forgotten. No other peer changes.
  lemma DeadPeerIsQueuedAgainIff(t: PeerTable, a: Addr, hadError: bool, finished: bool)
    requires a in t.states
    ensures var was, died := t.states[a], PeerDied(t, a, hadError, finished);
            var later := DeadToQueued(died, a);
            && (a !in later.states <==> was.Queued? || was.Dead?)
            && (a in later.states && later.states[a].Queued? <==>
                hadError && !finished && (was.Connecting? || was.Live?))
            && (a in later.states && later.states[a].NotNeeded? <==>
                was.NotNeeded? || ((was.Connecting? || was.Live?) && (finished || !hadError)))
            && (a in died.states && died.states[a].Dead? <==> a in later.states && later.states[a].Queued?)
            && later.states - {a} == died.states - {a} == t.states - {a}
  {
    hide KindOf, Counters.Add;
    var died := PeerDied(t, a, hadError, finished);
    forall b ensures b in died.states - {a} <==> b in t.states - {a} {}
    assert died.states - {a} == t.states - {a};
    assert DeadToQueued(died, a).states - {a} == died.states - {a};
  }

  // ---- in place -----------------------------------------------------------------------

  class AggregatePeerStats {
    var counters: Counters

    constructor ()
      ensures counters == Counters(0, 0, 0, 0, 0, 0)
    {
      counters := Counters(0, 0, 0, 0, 0, 0);
    }

    method Inc(s: PeerState)
      modifies this
      ensures counters == old(counters).Add(KindOf(s), 1)
    {
      counters := counters.Add(KindOf(s), 1);
    }

    // An unsigned decrement: the caller shows that the counter is not zero.
    method Dec(s: PeerState)
      requires counters.Get(KindOf(s)) >= 1
      modifies this
      ensures counters == old(counters).Add(KindOf(s), -1)
    {
      counters := counters.Add(KindOf(s), -1);
    }

    method IncDec(oldState: PeerState, newState: PeerState)
      requires counters.Get(KindOf(oldState)) >= 1
      modifies this
      ensures counters == old(counters).Add(KindOf(oldState), -1).Add(KindOf(newState), 1)
    {
      Dec(oldState);
      Inc(newState);
    }
  }

  class PeerStates {
    var states: map<Addr, PeerState>
    const stats: AggregatePeerStats

    ghost function Table(): PeerTable
      reads this, stats
    {
      PeerTable(states, stats.counters)
    }

    ghost predicate Valid()
      reads this, stats
    {
      CountersMatch(Table())
    }

    constructor ()
      ensures Valid() && fresh(stats) && Table() == EMPTY_TABLE
    {
      states := map[];
      stats := new AggregatePeerStats();
      new;
      forall k: Kind ensures Table().stats.Get(k) == |PeersIn(states, k)| {
        assert PeersIn(states, k) == {};
      }
    }

    // Both halves of one state change happen under the table's entry lock.
    method Set(a: Addr, s: PeerState) returns (prev: PeerState)
      requires Valid() && a in states
      modifies this, stats
      ensures Valid() && Table() == SetState(old(Table()), a, s)
      ensures prev == old(states[a]) && states == old(states)[a := s]
      ensures stats.counters.seen == old(stats.counters.seen)
    {
      SetStateCounts(Table(), a, s);
      CountersPartitionPeers(Table());
      prev := states[a];
      stats.IncDec(states[a], s);
      states := states[a := s];
    }

    method AddNew(a: Addr) returns (added: bool)
      requires Valid()
      modifies this, stats
      ensures Valid() && Table() == AddIfNotSeen(old(Table()), a)
      ensures added == (a !in old(states))
      ensures states == if added then old(states)[a := Queued] else old(states)
      ensures stats.counters.seen == old(stats.counters.seen) + (if added then 1 else 0)
    {
      OperationsKeepCounters(Table(), a, false, false);
      if a in states { return false; }
      states := states[a := Queued];
      stats.Inc(Queued);
      stats.counters := stats.counters.(seen := stats.counters.seen + 1);
      added := true;
    }

    method Drop(a: Addr)
      requires Valid()
      modifies this, stats
      ensures Valid() && Table() == DropPeer(old(Table()), a)
      ensures states == old(states) - {a} && stats.counters.seen == old(stats.counters.seen)
    {
      OperationsKeepCounters(Table(), a, false, false);
      CountersPartitionPeers(Table());
      if a !in states { return; }
      var s := states[a];
      states := states - {a};
      stats.Dec(s);
    }

    method MarkPeerConnecting(a: Addr) returns (ok: bool)
      requires Valid()
      modifies this, stats
      ensures Valid() && Table() == QueuedToConnecting(old(Table()), a)
      ensures ok == (a in old(states) && old(states[a]).Queued?)
      ensures states == if ok then old(states)[a := Connecting] else old(states)
      ensures stats.counters.seen == old(stats.counters.seen)
    {
      if a !in states || !states[a].Queued? { return false; }
      var _ := Set(a, Connecting);
      ok := true;
    }

    method SetPeerLive(a: Addr)
      requires Valid()
      modifies this, stats
      ensures Valid() && Table() == ConnectingToLive(old(Table()), a)
      ensures states == if a in old(states) && old(states[a]).Connecting? then
                          old(states)[a := Live(LivePeer(false, [], {}))]
                        else old(states)
      ensures stats.counters.seen == old(stats.counters.seen)
    {
      if a !in states || !states[a].Connecting? { return; }
      var _ := Set(a, Queued);
      var _ := Set(a, Live(NEW_LIVE_PEER));
    }

    method Incoming(a: Addr) returns (ok: bool)
      requires Valid()
      modifies this, stats
      ensures Valid() && Table() == IncomingConnection(old(Table()), a)
      ensures ok == !(a in old(states) && (old(states[a]).Connecting? || old(states[a]).Live?))
      ensures states == if ok then old(states)[a := Live(LivePeer(false, [], {}))] else old(states)
      ensures stats.counters.seen == old(stats.counters.seen) + (if a in old(states) then 0 else 1)
    {
      OperationsKeepCounters(Table(), a, false, false);
      if a in states {
        if states[a].Connecting? || states[a].Live? { return false; }
        var _ := Set(a, Queued);
        var _ := Set(a, Live(NEW_LIVE_PEER));
      } else {
        stats.counters := stats.counters.(seen := stats.counters.seen + 1);
        stats.Inc(Live(NEW_LIVE_PEER));
        states := states[a := Live(NEW_LIVE_PEER)];
      }
      ok := true;
    }

    method MarkPeerNotNeeded(a: Addr)
      requires Valid()
      modifies this, stats
      ensures Valid() && Table() == SetNotNeeded(old(Table()), a)
      ensures states == if a in old(states) then old(states)[a := NotNeeded] else old(states)
      ensures stats.counters.seen == old(stats.counters.seen)
    {
      if a !in states { return; }
      var _ := Set(a, NotNeeded);
    }

    method Requeue(a: Addr) returns (ok: bool)
      requires Valid()
      modifies this, stats
      ensures Valid() && Table() == DeadToQueued(old(Table()), a)
      ensures ok == (a in old(states) && old(states[a]).Dead?)
      ensures states == if ok then old(states)[a := Queued] else old(states)
      ensures stats.counters.seen == old(stats.counters.seen)
    {
      if a !in states || !states[a].Dead? { return false; }
      var _ := Set(a, Queued);
      ok := true;
    }

    // The tail of `on_peer_died`, after `take` put the dead peer in the default state.
    method SettleDeadPeer(a: Addr, prev: PeerState, hadError: bool, finished: bool)
      requires Valid() && a in states && states[a].Queued?
      modifies this, stats
      ensures Valid()
      ensures forall t: PeerTable :: a in t.states && t.states[a] == prev && old(Table()) == Take(t, a) ==>
                Table() == PeerDied(t, a, hadError, finished)
      ensures prev.Connecting? || prev.Live? ==>
                states == old(states)[a := if hadError && !finished then Dead else NotNeeded]
      ensures prev.NotNeeded? ==> states == old(states)[a := NotNeeded]
      ensures prev.Queued? || prev.Dead? ==> states == old(states) - {a}
      ensures stats.counters.seen == old(stats.counters.seen)
    {
      match prev {
        case Connecting => var _ := Set(a, if hadError && !finished then Dead else NotNeeded);
        case Live(_) => var _ := Set(a, if hadError && !finished then Dead else NotNeeded);
        case NotNeeded => var _ := Set(a, NotNeeded);
        case Queued => Drop(a);
        case Dead => Drop(a);
      }
    }

    method SetLive(a: Addr, live: LivePeer)
      requires Valid() && a in states && states[a].Live?
      modifies this
      ensures Valid() && Table() == UpdateLive(old(Table()), a, live)
      ensures states == old(states)[a := Live(live)]
    {
      UpdateLiveCounts(Table(), a, live);
      states := states[a := Live(live)];
    }
  }
}
