// The candidate list of a DHT lookup (dht.rs): kept sorted by a four-part key, with the
// last one dropped when there are too many.
module UsefulNodes {
  import opened Wrappers
  import opened HashId
  import opened SocketAddrs

  datatype UsefulNode = UsefulNode(
    id: Id20, addr: SocketAddr, lastRequest: nat, lastResponse: Option<nat>, errorsInARow: nat, returnedPeers: bool)

  // Nodes that returned peers come first, then nodes that responded, then nearer ones,
  // then those that responded last. No response is older than any.
  datatype SortKey = SortKey(noPeers: bool, noResponse: bool, distance: nat, sinceResponse: nat)

  function Elapsed(now: nat, since: nat): nat { if since <= now then now - since else 0 }

  function KeyOf(n: UsefulNode, infoHash: Id20, now: nat): SortKey {
    SortKey(!n.returnedPeers, n.lastResponse.None?, Num(Distance(n.id, infoHash)),
            if n.lastResponse.Some? then Elapsed(now, n.lastResponse.value) else 0)
  }

  predicate Le(a: SortKey, b: SortKey) {
    if a.noPeers != b.noPeers then b.noPeers
    else if a.noResponse != b.noResponse then b.noResponse
    else if a.distance != b.distance then a.distance < b.distance
    else a.sinceResponse <= b.sinceResponse
  }

  lemma LeTotal(a: SortKey, b: SortKey)
    ensures Le(a, b) || Le(b, a)
  {
  }

  predicate NotAfter(a: UsefulNode, b: UsefulNode, infoHash: Id20, now: nat) {
    Le(KeyOf(a, infoHash, now), KeyOf(b, infoHash, now))
  }

  lemma NotAfterTransitive(a: UsefulNode, b: UsefulNode, c: UsefulNode, infoHash: Id20, now: nat)
    requires NotAfter(a, b, infoHash, now) && NotAfter(b, c, infoHash, now)
    ensures NotAfter(a, c, infoHash, now)
  {
  }

  // Among nodes that answered alike, those that share the target's leading bits come
  // strictly before those that do not.
  lemma SharedPrefixComesFirst(inside: UsefulNode, outside: UsefulNode, target: Id20, start: Id20, end: Id20,
                               bits: nat, now: nat)
    requires IsRange(start, end, bits) && InRange(start, end, target)
    requires InRange(start, end, inside.id) && !InRange(start, end, outside.id)
    requires inside.returnedPeers == outside.returnedPeers && inside.lastResponse.Some? == outside.lastResponse.Some?
    ensures NotAfter(inside, outside, target, now) && !NotAfter(outside, inside, target, now)
  {
    hide IsRange, InRange, Num, Distance;
    RangeMembersAreCloser(start, end, bits, target, inside.id, outside.id);
    DistanceSymmetric(target, inside.id);
    DistanceSymmetric(target, outside.id);
  }

  lemma DistanceSymmetric(a: Id20, b: Id20)
    ensures Num(Distance(a, b)) == Num(Distance(b, a))
  {
    NumDistance(a, b);
    NumDistance(b, a);
    XorSymmetric(Num(a), Num(b));
  }

  ghost predicate Ordered(s: seq<UsefulNode>, infoHash: Id20, now: nat) {
    forall i, j :: 0 <= i < j < |s| ==> NotAfter(s[i], s[j], infoHash, now)
  }

  // `sort_by_key`, which is stable.
  function InsertByKey(s: seq<UsefulNode>, n: UsefulNode, infoHash: Id20, now: nat): (r: seq<UsefulNode>)
    ensures |r| == |s| + 1
  {
    if s == [] then [n]
    else if NotAfter(s[|s| - 1], n, infoHash, now) then s + [n]
    else InsertByKey(s[..|s| - 1], n, infoHash, now) + [s[|s| - 1]]
  }

  function SortByKey(s: seq<UsefulNode>, infoHash: Id20, now: nat): (r: seq<UsefulNode>)
    ensures |r| == |s|
  {
    if s == [] then [] else InsertByKey(SortByKey(s[..|s| - 1], infoHash, now), s[|s| - 1], infoHash, now)
  }

  lemma {:induction false} InsertIsPermutation(s: seq<UsefulNode>, n: UsefulNode, infoHash: Id20, now: nat)
    ensures multiset(InsertByKey(s, n, infoHash, now)) == multiset(s) + multiset{n}
  {
    hide NotAfter;
    if s != [] && !NotAfter(s[|s| - 1], n, infoHash, now) {
      InsertIsPermutation(s[..|s| - 1], n, infoHash, now);
      assert s == s[..|s| - 1] + [s[|s| - 1]];
    }
  }

  lemma {:induction false} InsertKeepsOrdered(s: seq<UsefulNode>, n: UsefulNode, infoHash: Id20, now: nat)
    requires Ordered(s, infoHash, now)
    ensures Ordered(InsertByKey(s, n, infoHash, now), infoHash, now)
  {
    hide NotAfter, KeyOf;
    if s == [] { return; }
    var front, last := s[..|s| - 1], s[|s| - 1];
    if NotAfter(last, n, infoHash, now) {
      forall i | 0 <= i < |s| ensures NotAfter(s[i], n, infoHash, now) {
        if i < |s| - 1 { NotAfterTransitive(s[i], last, n, infoHash, now); }
      }
    } else {
      assert NotAfter(n, last, infoHash, now) by { NotAfterTotal(n, last, infoHash, now); }
      InsertKeepsOrdered(front, n, infoHash, now);
      var r := InsertByKey(front, n, infoHash, now);
      forall i | 0 <= i < |r| ensures NotAfter(r[i], last, infoHash, now) {
        InsertIsPermutation(front, n, infoHash, now);
        assert r[i] in multiset(r);
      }
    }
  }

  lemma NotAfterTotal(a: UsefulNode, b: UsefulNode, infoHash: Id20, now: nat)
    ensures NotAfter(a, b, infoHash, now) || NotAfter(b, a, infoHash, now)
  {
    LeTotal(KeyOf(a, infoHash, now), KeyOf(b, infoHash, now));
  }

  lemma {:induction false} SortIsOrderedPermutation(s: seq<UsefulNode>, infoHash: Id20, now: nat)
    ensures multiset(SortByKey(s, infoHash, now)) == multiset(s)
    ensures Ordered(SortByKey(s, infoHash, now), infoHash, now)
  {
    hide NotAfter, InsertByKey;
    if s != [] {
      hide Ordered;
      var front, last := s[..|s| - 1], s[|s| - 1];
      SortIsOrderedPermutation(front, infoHash, now);
      InsertIsPermutation(SortByKey(front, infoHash, now), last, infoHash, now);
      InsertKeepsOrdered(SortByKey(front, infoHash, now), last, infoHash, now);
      assert s == front + [last];
    }
  }

  lemma EarlierIsBetter(a: UsefulNode, b: UsefulNode, target: Id20, now: nat)
    requires NotAfter(a, b, target, now)
    ensures b.returnedPeers ==> a.returnedPeers
    ensures a.returnedPeers == b.returnedPeers && b.lastResponse.Some? ==> a.lastResponse.Some?
    ensures a.returnedPeers == b.returnedPeers && a.lastResponse.Some? == b.lastResponse.Some? ==>
              var near, far := Num(Distance(a.id, target)), Num(Distance(b.id, target));
              && near <= far
              && (near == far && a.lastResponse.Some? && a.lastResponse.value < now ==>
                    b.lastResponse.value <= a.lastResponse.value)
  {
    hide Num, Distance;
  }

  // In the sorted list, whoever returned peers comes before whoever did not; of those alike
  // in that, whoever answered comes before whoever did not; and of those alike in both,
  // whoever shares the target's leading bits comes before whoever does not, the nearer one
  // first, and of two equally near the one that answered last.
  lemma BestComeFirst(s: seq<UsefulNode>, target: Id20, start: Id20, end: Id20, bits: nat, now: nat, i: nat, j: nat)
    requires i < j < |s| && IsRange(start, end, bits) && InRange(start, end, target)
    ensures var a, b := SortByKey(s, target, now)[i], SortByKey(s, target, now)[j];
            && (b.returnedPeers ==> a.returnedPeers)
            && (a.returnedPeers == b.returnedPeers ==>
                  && (b.lastResponse.Some? ==> a.lastResponse.Some?)
                  && (a.lastResponse.Some? == b.lastResponse.Some? ==>
                        var near, far := Num(Distance(a.id, target)), Num(Distance(b.id, target));
                        && near <= far
                        && (near == far && a.lastResponse.Some? && a.lastResponse.value < now ==>
                              b.lastResponse.value <= a.lastResponse.value)
                        && (InRange(start, end, b.id) ==> InRange(start, end, a.id))))
  {
    hide IsRange, InRange, Num, Distance;
    SortIsOrderedPermutation(s, target, now);
    var a, b := SortByKey(s, target, now)[i], SortByKey(s, target, now)[j];
    EarlierIsBetter(a, b, target, now);
    if a.returnedPeers == b.returnedPeers && a.lastResponse.Some? == b.lastResponse.Some?
       && InRange(start, end, b.id) && !InRange(start, end, a.id) {
      SharedPrefixComesFirst(b, a, target, start, end, bits, now);
    }
  }

  ghost predicate DistinctIds(s: seq<UsefulNode>) {
    forall i, j :: 0 <= i < j < |s| ==> s[i].id != s[j].id
  }

  predicate Listed(s: seq<UsefulNode>, id: Id20) { exists i :: 0 <= i < |s| && s[i].id == id }

  // Distinctness of ids is a matter of what is listed, not of the order.
  lemma {:induction false} PermutationKeepsDistinct(s: seq<UsefulNode>, t: seq<UsefulNode>)
    requires DistinctIds(s) && multiset(s) == multiset(t)
    ensures DistinctIds(t)
  {
    forall i, j | 0 <= i < j < |t| ensures t[i].id != t[j].id {
      IdsDiffer(s, t, i, j);
    }
  }

  lemma IdsDiffer(s: seq<UsefulNode>, t: seq<UsefulNode>, i: nat, j: nat)
    requires DistinctIds(s) && multiset(s) == multiset(t) && i < j < |t|
    ensures t[i].id != t[j].id
  {
    assert t[i] in multiset(t) && t[j] in multiset(t);
    var a :| 0 <= a < |s| && s[a] == t[i];
    var b :| 0 <= b < |s| && s[b] == t[j];
    if t[i] == t[j] { TwoCopies(t, i, j); }
    OnlyOnce(s, a);
    assert a != b;
  }

  lemma TwoCopies(t: seq<UsefulNode>, i: nat, j: nat)
    requires i < j < |t| && t[i] == t[j]
    ensures multiset(t)[t[i]] >= 2
  {
    assert t == t[..i] + [t[i]] + t[i + 1..j] + [t[j]] + t[j + 1..];
  }

  lemma OnlyOnce(s: seq<UsefulNode>, a: nat)
    requires DistinctIds(s) && a < |s|
    ensures multiset(s)[s[a]] == 1
  {
    assert s == s[..a] + [s[a]] + s[a + 1..];
    assert s[a] !in s[..a] && s[a] !in s[a + 1..];
  }

  class Candidates {
    const infoHash: Id20
    const maxDepth: nat
    const limit: nat
    var usefulNodes: seq<UsefulNode>

    ghost predicate Valid()
      reads this
    {
      DistinctIds(usefulNodes) && |usefulNodes| <= limit
    }

    constructor (infoHash: Id20, maxDepth: nat, limit: nat)
      ensures Valid() && usefulNodes == []
      ensures this.infoHash == infoHash && this.maxDepth == maxDepth && this.limit == limit
    {
      this.infoHash, this.maxDepth, this.limit, usefulNodes := infoHash, maxDepth, limit, [];
    }

    method FindId(id: Id20) returns (r: Option<nat>)
      ensures r.None? <==> !Listed(usefulNodes, id)
      ensures r.Some? ==> r.value < |usefulNodes| && usefulNodes[r.value].id == id
    {
      var i := 0;
      while i < |usefulNodes|
        invariant 0 <= i <= |usefulNodes| && forall k :: 0 <= k < i ==> usefulNodes[k].id != id
      {
        if usefulNodes[i].id == id { return Some(i); }
        i := i + 1;
      }
      r := None;
    }

    // `should_request_node`. A node at the depth limit is never requested; a known one only
    // when its last request is more than a minute ago; a new one unless it is itself the
    // one that drops out of a full list.
    method ShouldRequestNode(nodeId: Id20, addr: SocketAddr, depth: nat, now: nat) returns (r: bool)
      requires Valid()
      modifies `usefulNodes
      ensures Valid()
      ensures if depth >= maxDepth then !r && usefulNodes == old(usefulNodes)
              else Considered(old(usefulNodes), usefulNodes, UsefulNode(nodeId, addr, now, None, 0, false), infoHash,
                              limit, now, r)
    {
      hide Asked, Offered, DistinctIds;
      if depth >= maxDepth { return false; }
      var at := FindId(nodeId);
      if at.Some? {
        var existing := usefulNodes[at.value];
        if Elapsed(now, existing.lastRequest) > 60 {
          AskedAgain(usefulNodes, at.value, now);
          usefulNodes := usefulNodes[at.value := existing.(lastRequest := now)];
          return true;
        }
        AskedAgain(usefulNodes, at.value, now);
        return false;
      }
      var n := UsefulNode(nodeId, addr, now, None, 0, false);
      OfferedNew(usefulNodes, n, infoHash, limit, now);
      usefulNodes := SortByKey(usefulNodes + [n], infoHash, now);
      if |usefulNodes| > limit {
        var popped := usefulNodes[|usefulNodes| - 1];
        usefulNodes := usefulNodes[..|usefulNodes| - 1];
        if popped.id == nodeId { return false; }
      }
      r := true;
    }

    // `mark_node_responded` and `mark_node_error` change the first node of an address in
    // place, and nothing else.
    method MarkNode(addr: SocketAddr, now: nat, answer: Option<bool>) returns (found: bool)
      requires Valid()
      modifies `usefulNodes
      ensures Valid()
      ensures FirstMarked(old(usefulNodes), usefulNodes, addr, now, answer)
      ensures found <==> exists k :: 0 <= k < |usefulNodes| && usefulNodes[k].addr == addr
    {
      var i := 0;
      while i < |usefulNodes|
        invariant 0 <= i <= |usefulNodes| && usefulNodes == old(usefulNodes)
        invariant forall k :: 0 <= k < i ==> usefulNodes[k].addr != addr
      {
        if usefulNodes[i].addr == addr {
          usefulNodes := usefulNodes[i := MarkedNode(usefulNodes[i], now, answer)];
          assert usefulNodes[i].addr == addr;
          return true;
        }
        i := i + 1;
      }
      found := false;
    }
  }

  // A response, and whether it had peers in it, or no response.
  function MarkedNode(n: UsefulNode, now: nat, answer: Option<bool>): (r: UsefulNode)
    ensures r.id == n.id && r.addr == n.addr
  {
    match answer
    case Some(peers) => n.(lastResponse := Some(now), errorsInARow := 0, returnedPeers := peers)
    case None => n.(errorsInARow := n.errorsInARow + 1)
  }

  // Marking changes the first node of an address and nothing else; without one, nothing.
  ghost predicate FirstMarked(before: seq<UsefulNode>, after: seq<UsefulNode>, addr: SocketAddr, now: nat,
                              answer: Option<bool>)
  {
    || (after == before && forall k :: 0 <= k < |before| ==> before[k].addr != addr)
    || exists i :: 0 <= i < |before| && before[i].addr == addr
                   && (forall k :: 0 <= k < i ==> before[k].addr != addr)
                   && after == before[i := if answer.Some? then
                                             before[i].(lastResponse := Some(now), errorsInARow := 0,
                                                        returnedPeers := answer.value)
                                           else before[i].(errorsInARow := before[i].errorsInARow + 1)]
  }

  // A node above the depth limit is known, or it is new.
  ghost predicate Considered(before: seq<UsefulNode>, after: seq<UsefulNode>, n: UsefulNode,
                             infoHash: Id20, limit: nat, now: nat, r: bool) {
    if Listed(before, n.id) then Asked(before, after, n.id, now, r)
    else Offered(before, after, n, infoHash, limit, now, r)
  }

  // A known node is asked again exactly when its last request was over a minute ago.
  ghost predicate Asked(before: seq<UsefulNode>, after: seq<UsefulNode>, id: Id20, now: nat, r: bool) {
    exists i :: 0 <= i < |before| && before[i].id == id
                && (r <==> now > before[i].lastRequest + 60)
                && after == if r then before[i := before[i].(lastRequest := now)] else before
  }

  lemma AskedAgain(s: seq<UsefulNode>, i: nat, now: nat)
    requires i < |s| && DistinctIds(s)
    ensures var r := Elapsed(now, s[i].lastRequest) > 60;
            var s' := if r then s[i := s[i].(lastRequest := now)] else s;
            Asked(s, s', s[i].id, now, r) && DistinctIds(s')
  {
  }

  // A new node is taken; if that is one too many, a node with a maximal key drops out,
  // and the new node is requested unless that is itself.
  ghost predicate Offered(before: seq<UsefulNode>, after: seq<UsefulNode>, n: UsefulNode, infoHash: Id20, limit: nat,
                          now: nat, r: bool)
  {
    && Ordered(after, infoHash, now)
    && (|before| < limit ==> r && multiset(after) == multiset(before) + multiset{n})
    && (|before| >= limit ==>
          exists out: UsefulNode ::
            && multiset(after) + multiset{out} == multiset(before) + multiset{n}
            && (forall k :: 0 <= k < |after| ==> NotAfter(after[k], out, infoHash, now))
            && (r <==> out.id != n.id))
  }

  lemma OfferedNew(before: seq<UsefulNode>, n: UsefulNode, infoHash: Id20, limit: nat, now: nat)
    requires DistinctIds(before) && |before| <= limit && !Listed(before, n.id)
    ensures var all := SortByKey(before + [n], infoHash, now);
            && DistinctIds(all) && |all| == |before| + 1
            && (|all| <= limit ==> Offered(before, all, n, infoHash, limit, now, true))
            && (|all| > limit ==>
                  var front, popped := all[..|all| - 1], all[|all| - 1];
                  && DistinctIds(front)
                  && Offered(before, front, n, infoHash, limit, now, popped.id != n.id))
  {
    hide NotAfter, SortByKey, Offered;
    var all := SortByKey(before + [n], infoHash, now);
    SortIsOrderedPermutation(before + [n], infoHash, now);
    StillDistinct(before, n);
    PermutationKeepsDistinct(before + [n], all);
    if |all| > limit {
      LastDropsOut(before, all, n, infoHash, limit, now);
    } else {
      AllKept(before, all, n, infoHash, limit, now);
    }
  }

  lemma StillDistinct(before: seq<UsefulNode>, n: UsefulNode)
    requires DistinctIds(before) && !Listed(before, n.id)
    ensures DistinctIds(before + [n])
  {
  }

  lemma AllKept(before: seq<UsefulNode>, all: seq<UsefulNode>, n: UsefulNode, infoHash: Id20, limit: nat, now: nat)
    requires Ordered(all, infoHash, now) && multiset(all) == multiset(before + [n]) && |before| < limit
    ensures Offered(before, all, n, infoHash, limit, now, true)
  {
    hide NotAfter;
  }

  lemma LastDropsOut(before: seq<UsefulNode>, all: seq<UsefulNode>, n: UsefulNode, infoHash: Id20, limit: nat, now: nat)
    requires Ordered(all, infoHash, now) && multiset(all) == multiset(before + [n]) && |all| == |before| + 1
    requires DistinctIds(all) && |before| >= limit
    ensures var front, popped := all[..|all| - 1], all[|all| - 1];
            && DistinctIds(front)
            && Offered(before, front, n, infoHash, limit, now, popped.id != n.id)
  {
    hide NotAfter;
    var front, popped := all[..|all| - 1], all[|all| - 1];
    assert all == front + [popped];
    assert multiset(front) + multiset{popped} == multiset(before) + multiset{n};
  }
}
