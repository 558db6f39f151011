// peer_store.rs: which peers announced themselves, and the tokens that let them.
module PeerStore {
  import opened Wrappers
  import opened HashId
  import opened SocketAddrs

  datatype StoredToken = StoredToken(token: seq<byte>, nodeId: Id20, addr: SocketAddr)

  datatype StoredPeer = StoredPeer(addr: SocketAddr, time: nat)

  datatype AnnouncePeer = AnnouncePeer(id: Id20, impliedPort: byte, infoHash: Id20, port: u16, token: seq<byte>)

  // 00000fff...
  function MaxDistance(): Id20 { [0, 0, 15] + seq(17, i => 255) }

  // The largest number below 2^140: an info hash is near when it agrees with us in twenty bits.
  lemma MaxDistanceIs()
    ensures Num(MaxDistance()) + 1 == Pow2(140)
  {
    NumFifteen();
    SixteenTimes(136);
    hide Num, Pow2;
    OnesAfter([0, 0, 15], 17);
  }

  lemma NumFifteen()
    ensures Num([0, 0, 15]) == 15
  {
    var s: Id := [0, 0, 15];
    assert s[..2][..1] == s[..1] && s[..1][..0] == [];
    assert Num(s[..1]) == 0;
    assert Num(s[..2]) == 0;
  }

  lemma SixteenTimes(k: nat)
    ensures Pow2(k + 4) == 16 * Pow2(k)
  {
    assert Pow2(k + 4) == 2 * Pow2(k + 3) == 4 * Pow2(k + 2) == 8 * Pow2(k + 1);
  }

  // Summed length of the lists of a map.
  ghost function SumLens(m: map<Id20, seq<StoredPeer>>): nat
    decreases |m|
  {
    if m == map[] then 0
    else
      var k :| k in m;
      |m[k]| + SumLens(m - {k})
  }

  lemma {:induction false} SumLensAt(m: map<Id20, seq<StoredPeer>>, k: Id20)
    requires k in m
    ensures SumLens(m) == |m[k]| + SumLens(m - {k})
    decreases |m|
  {
    var p :| p in m && SumLens(m) == |m[p]| + SumLens(m - {p});
    if p != k {
      SumLensAt(m - {p}, k);
      SumLensAt(m - {k}, p);
      assert m - {p} - {k} == m - {k} - {p};
    }
  }

  // A list replaced or added changes the sum by the difference of lengths.
  lemma SumLensUpdate(m: map<Id20, seq<StoredPeer>>, k: Id20, s: seq<StoredPeer>)
    ensures SumLens(m[k := s]) == SumLens(m) + |s| - (if k in m then |m[k]| else 0)
  {
    var m' := m[k := s];
    SumLensAt(m', k);
    if k in m {
      SumLensAt(m, k);
      assert m' - {k} == m - {k};
    } else {
      assert m' - {k} == m;
    }
  }

  ghost predicate NoAddressTwice(s: seq<StoredPeer>) {
    forall i, j :: 0 <= i < j < |s| ==> s[i].addr != s[j].addr
  }

  // Every list is of a near info hash, holds IPv4 addresses only, and none twice.
  ghost predicate WellStored(peers: map<Id20, seq<StoredPeer>>, selfId: Id20, maxDistance: Id20) {
    forall h: Id20 :: h in peers ==> WellListed(h, peers[h], selfId, maxDistance)
  }

  ghost predicate WellListed(h: Id20, s: seq<StoredPeer>, selfId: Id20, maxDistance: Id20) {
    && Num(Distance(h, selfId)) <= Num(maxDistance)
    && NoAddressTwice(s)
    && forall i :: 0 <= i < |s| ==> s[i].addr.V4?
  }

  function Addrs(s: seq<StoredPeer>): (r: seq<SocketAddr>)
    ensures |r| == |s|
  {
    seq(|s|, i requires 0 <= i < |s| => s[i].addr)
  }

  // A token was given to this node at this address.
  predicate Matches(t: StoredToken, announce: AnnouncePeer, addr: SocketAddr) {
    t.token == announce.token && t.addr == addr && t.nodeId == announce.id
  }

  ghost predicate Matched(tokens: seq<StoredToken>, announce: AnnouncePeer, addr: SocketAddr) {
    exists k :: 0 <= k < |tokens| && Matches(tokens[k], announce, addr)
  }

  // One of the last n tokens given out matches.
  ghost predicate MatchedAmongLast(issued: seq<StoredToken>, n: nat, announce: AnnouncePeer, addr: SocketAddr) {
    exists k :: |issued| - n <= k < |issued| && 0 <= k && Matches(issued[k], announce, addr)
  }

  // The address a peer is stored under: the sender's, with the announced port unless the
  // announcement says to use the sender's.
  function AnnouncedAddr(announce: AnnouncePeer, addr: SocketAddr): SocketAddr
    requires addr.V4?
  {
    if announce.impliedPort == 0 then V4(addr.ip, announce.port) else addr
  }

  function PeersOf(peers: map<Id20, seq<StoredPeer>>, h: Id20): seq<StoredPeer> {
    if h in peers then peers[h] else []
  }

  // Storing an address under an info hash: it works when the address is listed already or
  // there is room, and then lists it once and changes no other list.
  ghost predicate StoredUnder(was: map<Id20, seq<StoredPeer>>, wasLen: nat, h: Id20, addr: SocketAddr, capacity: nat,
                              stored: bool, peers: map<Id20, seq<StoredPeer>>, len: nat)
  {
    var addrs := Addrs(PeersOf(was, h));
    && (stored <==> addr in addrs || wasLen < capacity)
    && (!stored ==> peers == was && len == wasLen)
    && (stored ==>
          && h in peers && peers - {h} == was - {h}
          && Addrs(peers[h]) == (if addr in addrs then addrs else addrs + [addr])
          && len == wasLen + (if addr in addrs then 0 else 1))
  }

  // A queue of the last tokens given out, within its limit.
  ghost predicate LastOf(tokens: seq<StoredToken>, issued: seq<StoredToken>, limit: nat) {
    && |tokens| <= limit && |tokens| <= |issued|
    && tokens == issued[|issued| - |tokens|..]
    && (|tokens| < limit ==> tokens == issued)
  }

  // The queue holds a match exactly when the last tokens given out do.
  lemma LastTokens(tokens: seq<StoredToken>, issued: seq<StoredToken>, limit: nat,
                   announce: AnnouncePeer, addr: SocketAddr)
    requires LastOf(tokens, issued, limit)
    ensures Matched(tokens, announce, addr) <==> MatchedAmongLast(issued, limit, announce, addr)
  {
    hide Matches;
    var o := |issued| - |tokens|;
    if Matched(tokens, announce, addr) {
      var k :| 0 <= k < |tokens| && Matches(tokens[k], announce, addr);
      assert issued[o + k] == tokens[k];
    }
    if MatchedAmongLast(issued, limit, announce, addr) {
      var k :| |issued| - limit <= k < |issued| && 0 <= k && Matches(issued[k], announce, addr);
      assert tokens[k - o] == issued[k];
    }
  }

  class PeerStore {
    const selfId: Id20
    const maxRememberedTokens: u32
    const maxRememberedPeers: u32
    const maxDistance: Id20
    var tokens: seq<StoredToken>
    var peers: map<Id20, seq<StoredPeer>>
    var peersLen: u32
    // Every token ever given out, in order.
    ghost var issued: seq<StoredToken>

    // The queue is the last tokens given out, the counter counts the stored peers, and
    // what is stored is near, within capacity and listed once.
    ghost predicate Valid()
      reads this
    {
      && LastOf(tokens, issued, maxRememberedTokens)
      && peersLen == SumLens(peers) <= maxRememberedPeers
      && WellStored(peers, selfId, maxDistance)
    }

    constructor (selfId: Id20)
      ensures Valid() && peers == map[] && issued == [] && this.selfId == selfId
      ensures maxRememberedTokens == 1000 && maxRememberedPeers == 1000
      ensures Num(maxDistance) + 1 == Pow2(140)
    {
      MaxDistanceIs();
      this.selfId := selfId;
      maxRememberedTokens, maxRememberedPeers, maxDistance := 1000, 1000, MaxDistance();
      tokens, peers, peersLen, issued := [], map[], 0, [];
    }

    // `gen_token_for`: the token is random and given in; the oldest one is forgotten when
    // there are too many.
    method GenTokenFor(nodeId: Id20, addr: SocketAddr, randomBytes: seq<byte>) returns (token: seq<byte>)
      requires Valid() && |randomBytes| == 4
      modifies `tokens, `issued
      ensures Valid() && token == randomBytes
      ensures issued == old(issued) + [StoredToken(token, nodeId, addr)]
    {
      token := randomBytes;
      tokens := tokens + [StoredToken(token, nodeId, addr)];
      issued := issued + [StoredToken(token, nodeId, addr)];
      if |tokens| > maxRememberedTokens { tokens := tokens[1..]; }
    }

    method AnyMatch(announce: AnnouncePeer, addr: SocketAddr) returns (found: bool)
      ensures found <==> Matched(tokens, announce, addr)
    {
      var i := 0;
      while i < |tokens|
        invariant 0 <= i <= |tokens| && forall k :: 0 <= k < i ==> !Matches(tokens[k], announce, addr)
      {
        var t := tokens[i];
        if t.token == announce.token && t.addr == addr && t.nodeId == announce.id { return true; }
        i := i + 1;
      }
      found := false;
    }

    // What an announcement must satisfy to be looked at, in terms of the tokens given out.
    ghost predicate Acceptable(announce: AnnouncePeer, addr: SocketAddr)
      reads this
    {
      && addr.V4?
      && Num(Distance(announce.infoHash, selfId)) <= Num(maxDistance)
      && MatchedAmongLast(issued, maxRememberedTokens, announce, addr)
    }

    // `store_peer` succeeds exactly for an IPv4 sender that announces a near info hash with
    // one of the last tokens, given to its node id and address, when it is listed already
    // or there is room. It then is listed once, under the right port; nothing else changes.
    method StorePeer(announce: AnnouncePeer, sender: SocketAddr, now: nat) returns (stored: bool)
      requires Valid()
      modifies `peers, `peersLen
      ensures Valid()
      ensures Acceptable(announce, sender) ==>
                StoredUnder(old(peers), old(peersLen), announce.infoHash, AnnouncedAddr(announce, sender),
                            maxRememberedPeers, stored, peers, peersLen)
      ensures !Acceptable(announce, sender) ==> !stored && peers == old(peers) && peersLen == old(peersLen)
      ensures stored ==>
                && sender.V4? && announce.infoHash in peers
                && (announce.impliedPort == 0 ==>
                    StoredPeer(V4(sender.ip, announce.port), now) in peers[announce.infoHash])
                && (announce.impliedPort != 0 ==> StoredPeer(sender, now) in peers[announce.infoHash])
    {
      hide Num, Distance, WellStored, WellListed, SumLens, Matched, MatchedAmongLast, StoredUnder, LastOf;
      if sender.V6? { return false; }
      if Num(Distance(announce.infoHash, selfId)) > Num(maxDistance) { return false; }
      var found := AnyMatch(announce, sender);
      LastTokens(tokens, issued, maxRememberedTokens, announce, sender);
      if !found { return false; }
      stored := Store(announce.infoHash, AnnouncedAddr(announce, sender), now);
    }

    // The part of storing that looks at the lists: a listed address is only refreshed, a
    // new one needs room.
    method Store(h: Id20, addr: SocketAddr, now: nat) returns (stored: bool)
      requires Valid() && addr.V4? && Num(Distance(h, selfId)) <= Num(maxDistance)
      modifies `peers, `peersLen
      ensures Valid()
      ensures StoredUnder(old(peers), old(peersLen), h, addr, maxRememberedPeers, stored, peers, peersLen)
      ensures stored ==> h in peers && StoredPeer(addr, now) in peers[h]
    {
      hide Num, Distance, WellStored, WellListed, SumLens, Addrs, PeersOf, StoredUnder, LastOf;
      var listed := PeersOf(peers, h);
      var at := FindPeer(listed, addr);
      if at.Some? {
        ListRefreshed(peers, peersLen, maxRememberedPeers, selfId, maxDistance, h, at.value, StoredPeer(addr, now));
        peers := peers[h := listed[at.value := StoredPeer(addr, now)]];
        assert peers[h][at.value] == StoredPeer(addr, now);
        return true;
      }
      if peersLen >= maxRememberedPeers {
        NotListed(peers, peersLen, h, addr, maxRememberedPeers);
        return false;
      }
      ListExtended(peers, peersLen, maxRememberedPeers, selfId, maxDistance, h, StoredPeer(addr, now));
      peers := peers[h := listed + [StoredPeer(addr, now)]];
      peersLen := peersLen + 1;
      stored := true;
    }

    // `get_for_info_hash`.
    method GetForInfoHash(h: Id20) returns (addrs: seq<SocketAddr>)
      requires Valid()
      ensures addrs == Addrs(PeersOf(peers, h))
      ensures forall i, j :: 0 <= i < j < |addrs| ==> addrs[i] != addrs[j]
      ensures addrs != [] ==> Num(Distance(h, selfId)) <= Num(maxDistance)
      ensures |addrs| <= maxRememberedPeers
    {
      hide Num, Distance;
      if h in peers {
        SumLensAt(peers, h);
        ListedOnce(peers[h], h, selfId, maxDistance);
        return Addrs(peers[h]);
      }
      addrs := [];
    }
  }

  lemma ListedOnce(s: seq<StoredPeer>, h: Id20, selfId: Id20, maxDistance: Id20)
    requires WellListed(h, s, selfId, maxDistance)
    ensures forall i, j :: 0 <= i < j < |s| ==> Addrs(s)[i] != Addrs(s)[j]
    ensures Num(Distance(h, selfId)) <= Num(maxDistance)
  {
    hide Num, Distance;
  }

  lemma NotListed(m: map<Id20, seq<StoredPeer>>, len: nat, h: Id20, addr: SocketAddr, capacity: nat)
    requires addr !in Addrs(PeersOf(m, h)) && len >= capacity
    ensures StoredUnder(m, len, h, addr, capacity, false, m, len)
  {
  }

  // A list whose peer at one place is seen again.
  lemma ListRefreshed(m: map<Id20, seq<StoredPeer>>, len: nat, capacity: nat, selfId: Id20, maxDistance: Id20,
                      h: Id20, at: nat, p: StoredPeer)
    requires WellStored(m, selfId, maxDistance) && at < |PeersOf(m, h)| && PeersOf(m, h)[at].addr == p.addr
    ensures var m' := m[h := PeersOf(m, h)[at := p]];
            && WellStored(m', selfId, maxDistance) && SumLens(m') == SumLens(m)
            && StoredUnder(m, len, h, p.addr, capacity, true, m', len)
  {
    hide Num, Distance, SumLens;
    var s := PeersOf(m, h)[at := p];
    SumLensUpdate(m, h, s);
    assert WellListed(h, m[h], selfId, maxDistance);
    assert forall i :: 0 <= i < |s| ==> s[i].addr == m[h][i].addr;
    assert WellListed(h, s, selfId, maxDistance);
    assert Addrs(s) == Addrs(m[h]) && Addrs(m[h])[at] == p.addr;
    assert m[h := s] - {h} == m - {h};
  }

  // A list that gets a new peer.
  lemma ListExtended(m: map<Id20, seq<StoredPeer>>, len: nat, capacity: nat, selfId: Id20, maxDistance: Id20,
                     h: Id20, p: StoredPeer)
    requires WellStored(m, selfId, maxDistance) && p.addr !in Addrs(PeersOf(m, h)) && p.addr.V4? && len < capacity
    requires Num(Distance(h, selfId)) <= Num(maxDistance)
    ensures var m' := m[h := PeersOf(m, h) + [p]];
            && WellStored(m', selfId, maxDistance) && SumLens(m') == SumLens(m) + 1
            && StoredUnder(m, len, h, p.addr, capacity, true, m', len + 1)
  {
    hide Num, Distance, SumLens;
    var was := PeersOf(m, h);
    var s := was + [p];
    SumLensUpdate(m, h, s);
    assert h in m ==> WellListed(h, m[h], selfId, maxDistance);
    assert forall i :: 0 <= i < |was| ==> Addrs(was)[i] == s[i].addr;
    assert WellListed(h, s, selfId, maxDistance);
    assert Addrs(s) == Addrs(was) + [p.addr];
    assert m[h := s] - {h} == m - {h};
  }

  method FindPeer(s: seq<StoredPeer>, addr: SocketAddr) returns (r: Option<nat>)
    ensures r.None? <==> addr !in Addrs(s)
    ensures r.Some? ==> r.value < |s| && s[r.value].addr == addr
  {
    var i := 0;
    while i < |s|
      invariant 0 <= i <= |s| && forall k :: 0 <= k < i ==> s[k].addr != addr
    {
      if s[i].addr == addr {
        assert Addrs(s)[i] == addr;
        return Some(i);
      }
      i := i + 1;
    }
    r := None;
  }
}
