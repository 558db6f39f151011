// dht.rs: the recursive lookup that fills the routing table. Requests wait in a queue, run,
// and put more requests in the queue; responses, their order and the clock are arbitrary.
module DhtLookup {
  import opened Wrappers
  import opened HashId
  import opened SocketAddrs
  import NL = NodeList
  import RT = RoutingTable
  import opened UsefulNodes

  const MAX_DEPTH: nat := 4
  const USEFUL_NODES_LIMIT: nat := 32

  datatype LookupRequest = LookupRequest(id: Option<Id20>, addr: SocketAddr, depth: nat)

  // A response with a list of nodes, an error response, or none.
  datatype Answer = Nodes(nodes: seq<(Id20, SocketAddr)>, hasPeers: bool) | ErrorResponse | NoAnswer

  function Count(s: seq<LookupRequest>, depth: nat): nat {
    if s == [] then 0 else Count(s[..|s| - 1], depth) + (if s[|s| - 1].depth == depth then 1 else 0)
  }

  lemma CountPush(s: seq<LookupRequest>, r: LookupRequest, depth: nat)
    ensures Count(s + [r], depth) == Count(s, depth) + (if r.depth == depth then 1 else 0)
  {
    assert (s + [r])[..|s|] == s;
  }

  lemma {:induction false} CountJoin(a: seq<LookupRequest>, b: seq<LookupRequest>, depth: nat)
    ensures Count(a + b, depth) == Count(a, depth) + Count(b, depth)
  {
    if b == [] {
      assert a + b == a;
    } else {
      CountJoin(a, b[..|b| - 1], depth);
      assert (a + b)[..|a + b| - 1] == a + b[..|b| - 1];
    }
  }

  lemma CountWithout(s: seq<LookupRequest>, i: nat, depth: nat)
    requires i < |s|
    ensures Count(s, depth) == Count(WithoutIndex(s, i), depth) + (if s[i].depth == depth then 1 else 0)
  {
    CountJoin(s[..i], s[i + 1..], depth);
    CountPush(s[..i], s[i], depth);
    CountJoin(s[..i] + [s[i]], s[i + 1..], depth);
    assert s == s[..i] + [s[i]] + s[i + 1..];
  }

  ghost predicate WithinDepth(s: seq<LookupRequest>) { forall i :: 0 <= i < |s| ==> s[i].depth <= MAX_DEPTH }

  // What is queued, what awaits its first answer, and what awaits its second.
  datatype Lookup = Lookup(queue: seq<LookupRequest>, first: seq<LookupRequest>, second: seq<LookupRequest>)

  ghost predicate Bounded(l: Lookup) { WithinDepth(l.queue) && WithinDepth(l.first) && WithinDepth(l.second) }

  // How many requests of a depth are not done.
  ghost function Open(l: Lookup, depth: nat): nat {
    Count(l.queue, depth) + Count(l.first, depth) + Count(l.second, depth)
  }

  // How many steps those requests have left, beside the requests they may cause.
  ghost function Steps(l: Lookup): nat { 3 * |l.queue| + 2 * |l.first| + |l.second| }

  // Lexicographic decrease: fewer open requests at some depth and no more at any
  // shallower one; or the same ones, one of them a step further.
  ghost predicate Decreases(l: Lookup, l': Lookup) {
    || (exists d: nat :: d <= MAX_DEPTH && Open(l', d) < Open(l, d) && forall k: nat :: k < d ==>
        Open(l', k) == Open(l, k))
    || ((forall k: nat :: k <= MAX_DEPTH ==> Open(l', k) == Open(l, k)) && Steps(l') < Steps(l))
  }

  // Taking a request from the queue.
  function Take(l: Lookup): Lookup
    requires l.queue != []
  {
    Lookup(l.queue[1..], l.first + [l.queue[0]], l.second)
  }

  // The first answer to a running request.
  function Advance(l: Lookup, i: nat): Lookup
    requires i < |l.first|
  {
    Lookup(l.queue, WithoutIndex(l.first, i), l.second + [l.first[i]])
  }

  // The second answer: the request is done and has put others in the queue.
  function Finish(l: Lookup, i: nat, more: seq<LookupRequest>): Lookup
    requires i < |l.second|
  {
    Lookup(l.queue + more, l.first, WithoutIndex(l.second, i))
  }

  // No step loses or repeats a request: a request moves from the queue to its first answer and
  // on to its second, and with that it is done and the requests it caused are queued.
  lemma StepsKeepRequests(l: Lookup, i: nat, more: seq<LookupRequest>)
    ensures l.queue != [] ==>
              && multiset(Take(l).queue) + multiset{l.queue[0]} == multiset(l.queue)
              && multiset(Take(l).first) == multiset(l.first) + multiset{l.queue[0]} && Take(l).second == l.second
    ensures i < |l.first| ==>
              && multiset(Advance(l, i).first) + multiset{l.first[i]} == multiset(l.first)
              && multiset(Advance(l, i).second) == multiset(l.second) + multiset{l.first[i]}
              && Advance(l, i).queue == l.queue
    ensures i < |l.second| ==>
              && multiset(Finish(l, i, more).second) + multiset{l.second[i]} == multiset(l.second)
              && multiset(Finish(l, i, more).queue) == multiset(l.queue) + multiset(more)
              && Finish(l, i, more).first == l.first
  {
    hide WithoutIndex;
    if l.queue != [] {
      assert l.queue == [l.queue[0]] + l.queue[1..];
    }
    if i < |l.first| { OneTakenOut(l.first, i); }
    if i < |l.second| { OneTakenOut(l.second, i); }
  }

  lemma OneTakenOut(s: seq<LookupRequest>, i: nat)
    requires i < |s|
    ensures multiset(WithoutIndex(s, i)) + multiset{s[i]} == multiset(s)
  {
    assert s == s[..i] + [s[i]] + s[i + 1..];
  }

  lemma TakeDecreases(l: Lookup)
    requires Bounded(l) && l.queue != []
    ensures Bounded(Take(l)) && Decreases(l, Take(l))
  {
    hide Count;
    forall k: nat | k <= MAX_DEPTH ensures Open(Take(l), k) == Open(l, k) {
      CountWithout(l.queue, 0, k);
      assert WithoutIndex(l.queue, 0) == l.queue[1..];
      CountPush(l.first, l.queue[0], k);
    }
  }

  lemma AdvanceDecreases(l: Lookup, i: nat)
    requires Bounded(l) && i < |l.first|
    ensures Bounded(Advance(l, i)) && Decreases(l, Advance(l, i))
  {
    hide Count;
    forall k: nat | k <= MAX_DEPTH ensures Open(Advance(l, i), k) == Open(l, k) {
      CountWithout(l.first, i, k);
      CountPush(l.second, l.first[i], k);
    }
  }

  // A finished request may cause any number of others, but only one level deeper.
  ghost predicate OneDeeper(more: seq<LookupRequest>, depth: nat) {
    forall k :: 0 <= k < |more| ==> more[k].depth == depth + 1 <= MAX_DEPTH
  }

  lemma {:induction false} NoneAt(more: seq<LookupRequest>, depth: nat, k: nat)
    requires OneDeeper(more, depth) && k <= depth
    ensures Count(more, k) == 0
  {
    if more != [] { NoneAt(more[..|more| - 1], depth, k); }
  }

  lemma FinishDecreases(l: Lookup, i: nat, more: seq<LookupRequest>)
    requires Bounded(l) && i < |l.second| && OneDeeper(more, l.second[i].depth)
    ensures Bounded(Finish(l, i, more)) && Decreases(l, Finish(l, i, more))
  {
    hide Count;
    var d := l.second[i].depth;
    forall k: nat | k <= d ensures Open(Finish(l, i, more), k) == Open(l, k) - (if k == d then 1 else 0) {
      CountJoin(l.queue, more, k);
      NoneAt(more, d, k);
      CountWithout(l.second, i, k);
    }
    assert Open(Finish(l, i, more), d) < Open(l, d);
  }

  // `on_request_start`: the node is added to the routing table if it has room, and marked
  // as requested when it is in it; no other node is added or changed.
  method OnRequestStart(table: RT.Table, id: Id20, addr: SocketAddr, now: nat)
    requires table.Valid()
    modifies table, table.buckets
    ensures table.Valid()
    ensures id in old(table.Map()) ==> id in table.Map()
    ensures id in table.Map() || table.NoRoom(id)
    ensures id in table.Map() ==>
              var was := if id in old(table.Map()) then old(table.Map())[id] else NL.FreshNode(id, addr);
              && table.Map()[id] == NL.Marked(was, NL.OutgoingRequest(now))
              && table.Map()[id] == was.(lastRequest := Some(now))
    ensures forall o: Id20 :: o in table.Map() && o != id ==>
              o in old(table.Map()) && table.Map()[o] == old(table.Map())[o]
  {
    hide RT.Remembered, NL.TwoErrorsInARow, RT.HistoryInserted;
    var r := table.AddNode(id, addr);
    if !r.Ignored? {
      var known := table.Mark(id, NL.OutgoingRequest(now));
    }
  }

  // The nodes of an answer are offered to the candidates one after another. A round says
  // when, whether the node is to be requested, and what the list is afterwards.
  datatype Round = Round(now: nat, requested: bool, list: seq<UsefulNode>)

  ghost function ListAfter(before: seq<UsefulNode>, rounds: seq<Round>): seq<UsefulNode> {
    if rounds == [] then before else rounds[|rounds| - 1].list
  }

  ghost predicate Rounds(before: seq<UsefulNode>, nodes: seq<(Id20, SocketAddr)>, rounds: seq<Round>, target: Id20,
                         limit: nat)
  {
    && |rounds| == |nodes|
    && forall i :: 0 <= i < |rounds| ==> IsRound(ListAfter(before, rounds[..i]), nodes[i], rounds[i], target, limit)
  }

  ghost predicate IsRound(before: seq<UsefulNode>, node: (Id20, SocketAddr), round: Round, target: Id20, limit: nat) {
    Considered(before, round.list, UsefulNode(node.0, node.1, round.now, None, 0, false), target, limit, round.now,
               round.requested)
  }

  // The requests those rounds cause, in the answer's order.
  ghost function Chosen(nodes: seq<(Id20, SocketAddr)>, rounds: seq<Round>, depth: nat): seq<LookupRequest>
    requires |rounds| == |nodes|
  {
    if nodes == [] then []
    else
      var k := |nodes| - 1;
      Chosen(nodes[..k], rounds[..k], depth)
      + if rounds[k].requested then [LookupRequest(Some(nodes[k].0), nodes[k].1, depth + 1)] else []
  }

  // What an answer's nodes make of the candidates, and which of them are requested: none at
  // the depth limit, else those that the candidates ask for.
  ghost predicate Requested(before: seq<UsefulNode>, after: seq<UsefulNode>, nodes: seq<(Id20, SocketAddr)>,
                            target: Id20, limit: nat, depth: nat, more: seq<LookupRequest>) {
    if depth >= MAX_DEPTH then more == [] && after == before
    else exists rounds :: Rounds(before, nodes, rounds, target, limit)
                          && after == ListAfter(before, rounds) && more == Chosen(nodes, rounds, depth)
  }

  lemma NothingRequested(before: seq<UsefulNode>, target: Id20, limit: nat, depth: nat)
    ensures Requested(before, before, [], target, limit, depth, [])
  {
    assert Rounds(before, [], [], target, limit);
  }

  lemma RequestedNext(before: seq<UsefulNode>, list: seq<UsefulNode>, nodes: seq<(Id20, SocketAddr)>, i: nat,
                      target: Id20, limit: nat, depth: nat, more: seq<LookupRequest>, round: Round)
    requires i < |nodes| && Requested(before, list, nodes[..i], target, limit, depth, more)
    requires if depth >= MAX_DEPTH then !round.requested && round.list == list
             else IsRound(list, nodes[i], round, target, limit)
    ensures Requested(before, round.list, nodes[..i + 1], target, limit, depth,
                      more + if round.requested then [LookupRequest(Some(nodes[i].0), nodes[i].1, depth + 1)] else [])
  {
    hide Chosen, ListAfter, IsRound;
    if depth < MAX_DEPTH {
      var rounds :| Rounds(before, nodes[..i], rounds, target, limit)
                    && list == ListAfter(before, rounds) && more == Chosen(nodes[..i], rounds, depth);
      OneMoreRound(before, nodes, rounds, i, round, target, limit, depth);
    }
  }

  lemma OneMoreRound(before: seq<UsefulNode>, nodes: seq<(Id20, SocketAddr)>, rounds: seq<Round>, i: nat, round: Round,
                     target: Id20, limit: nat, depth: nat)
    requires i < |nodes| && Rounds(before, nodes[..i], rounds, target, limit)
    requires IsRound(ListAfter(before, rounds), nodes[i], round, target, limit)
    ensures Rounds(before, nodes[..i + 1], rounds + [round], target, limit)
    ensures ListAfter(before, rounds + [round]) == round.list
    ensures Chosen(nodes[..i + 1], rounds + [round], depth) == Chosen(nodes[..i], rounds, depth)
            + if round.requested then [LookupRequest(Some(nodes[i].0), nodes[i].1, depth + 1)] else []
  {
    hide IsRound, ListAfter;
    var rounds' := rounds + [round];
    assert rounds'[..i] == rounds && nodes[..i + 1][..i] == nodes[..i];
    forall k | 0 <= k < |rounds'|
      ensures IsRound(ListAfter(before, rounds'[..k]), nodes[..i + 1][k], rounds'[k], target, limit)
    {
      assert rounds'[..k] == rounds[..k];
      if k < i { assert nodes[..i][k] == nodes[..i + 1][k]; }
    }
    assert ListAfter(before, rounds') == round.list by { LastRound(before, rounds, round); }
  }

  lemma LastRound(before: seq<UsefulNode>, rounds: seq<Round>, round: Round)
    ensures ListAfter(before, rounds + [round]) == round.list
  {
  }

  // The requests are for nodes of the answer, one level deeper.
  lemma {:induction false} ChosenAreOneDeeper(nodes: seq<(Id20, SocketAddr)>, rounds: seq<Round>, depth: nat)
    requires |rounds| == |nodes| && depth < MAX_DEPTH
    ensures OneDeeper(Chosen(nodes, rounds, depth), depth) && |Chosen(nodes, rounds, depth)| <= |nodes|
    ensures forall r :: r in Chosen(nodes, rounds, depth) ==> r.id.Some? && (r.id.value, r.addr) in nodes
  {
    if nodes != [] { ChosenAreOneDeeper(nodes[..|nodes| - 1], rounds[..|nodes| - 1], depth); }
  }

  lemma RequestedAreOneDeeper(before: seq<UsefulNode>, after: seq<UsefulNode>, nodes: seq<(Id20, SocketAddr)>,
                              target: Id20, limit: nat, depth: nat, more: seq<LookupRequest>)
    requires Requested(before, after, nodes, target, limit, depth, more)
    ensures OneDeeper(more, depth) && |more| <= |nodes|
    ensures forall r :: r in more ==> r.id.Some? && (r.id.value, r.addr) in nodes
  {
    if depth < MAX_DEPTH {
      var rounds :| Rounds(before, nodes, rounds, target, limit) && more == Chosen(nodes, rounds, depth);
      ChosenAreOneDeeper(nodes, rounds, depth);
    }
  }

  method RequestNodes(candidates: Candidates, nodes: seq<(Id20, SocketAddr)>, depth: nat)
    returns (more: seq<LookupRequest>)
    requires candidates.Valid() && candidates.maxDepth == MAX_DEPTH
    modifies candidates
    ensures candidates.Valid()
    ensures Requested(old(candidates.usefulNodes), candidates.usefulNodes, nodes, candidates.infoHash,
                      candidates.limit, depth, more)
    ensures OneDeeper(more, depth)
  {
    hide Requested, Considered, OneDeeper, DistinctIds;
    more := [];
    ghost var before := candidates.usefulNodes;
    NothingRequested(before, candidates.infoHash, candidates.limit, depth);
    var i := 0;
    while i < |nodes|
      invariant 0 <= i <= |nodes| && candidates.Valid()
      invariant Requested(before, candidates.usefulNodes, nodes[..i], candidates.infoHash, candidates.limit, depth,
                          more)
    {
      ghost var list := candidates.usefulNodes;
      var now: nat := *;
      var should := candidates.ShouldRequestNode(nodes[i].0, nodes[i].1, depth, now);
      RequestedNext(before, list, nodes, i, candidates.infoHash, candidates.limit, depth, more,
                    Round(now, should, candidates.usefulNodes));
      assert more + [] == more;
      if should { more := more + [LookupRequest(Some(nodes[i].0), nodes[i].1, depth + 1)]; }
      i := i + 1;
    }
    assert nodes[..i] == nodes;
    RequestedAreOneDeeper(before, candidates.usefulNodes, nodes, candidates.infoHash, candidates.limit, depth, more);
  }

  // What an answer makes of the routing table's node: `on_request_end`.
  function AnswerMark(answer: Answer, now: nat): NL.Mark {
    if answer.NoAnswer? then NL.Mark.Error else NL.Response(now)
  }

  ghost function AfterAnswer(m: map<Id20, NL.Node>, r: LookupRequest, answer: Answer, now: nat): map<Id20, NL.Node> {
    if r.id.Some? && r.id.value in m then m[r.id.value := NL.Marked(m[r.id.value], AnswerMark(answer, now))] else m
  }

  // Without a response the node has one error more, and with one it has none in a row and
  // remembers when it responded.
  lemma AnswerChanges(m: map<Id20, NL.Node>, r: LookupRequest, answer: Answer, now: nat)
    requires r.id.Some? && r.id.value in m
    ensures var was, now' := m[r.id.value], AfterAnswer(m, r, answer, now)[r.id.value];
            && now'.errorsInARow == (if answer.NoAnswer? then was.errorsInARow + 1 else 0)
            && now'.lastResponse == (if answer.NoAnswer? then was.lastResponse else Some(now))
            && now'.lastRequest == (if was.lastRequest.Some? || answer.NoAnswer? then was.lastRequest else Some(now))
            && now'.lastQuery == was.lastQuery && now'.id == was.id && now'.addr == was.addr
  {
  }

  // The first of the two identical requests `request_one` sends: its outcome is recorded
  // in the list, for the first candidate of the address, and in the table.
  method FirstAnswer(candidates: Candidates, table: RT.Table, r: LookupRequest, answer: Answer, now: nat)
    requires candidates.Valid() && table.Valid()
    modifies candidates, table, table.buckets
    ensures candidates.Valid() && table.Valid()
    ensures table.Map() == AfterAnswer(old(table.Map()), r, answer, now)
    ensures r.id.Some? && r.id.value in old(table.Map()) ==>
              var was, now' := old(table.Map())[r.id.value], table.Map()[r.id.value];
              && now'.errorsInARow == (if answer.NoAnswer? then was.errorsInARow + 1 else 0)
              && now'.lastResponse == (if answer.NoAnswer? then was.lastResponse else Some(now))
    ensures answer.NoAnswer? ==> candidates.usefulNodes == old(candidates.usefulNodes)
    ensures !answer.NoAnswer? ==>
              FirstMarked(old(candidates.usefulNodes), candidates.usefulNodes, r.addr, now,
                          Some(answer.Nodes? && answer.hasPeers))
  {
    hide NL.Marked, AnswerMark, FirstMarked, DistinctIds, RT.Remembered;
    if r.id.Some? && r.id.value in table.Map() { AnswerChanges(table.Map(), r, answer, now); }
    if !answer.NoAnswer? {
      var found := candidates.MarkNode(r.addr, now, Some(answer.Nodes? && answer.hasPeers));
    }
    if r.id.Some? {
      var known := table.Mark(r.id.value, AnswerMark(answer, now));
    }
  }

  // The second one brings the nodes to go on with; without it the request failed. It also
  // fails, before any node is looked at, when the answer has peers: this lookup has nobody
  // to send them to, because the receiving end of its peer channel is dropped at once.
  method SecondAnswer(candidates: Candidates, r: LookupRequest, answer: Answer, now: nat)
    returns (ok: bool, more: seq<LookupRequest>)
    requires candidates.Valid() && candidates.maxDepth == MAX_DEPTH
    modifies candidates
    ensures candidates.Valid() && OneDeeper(more, r.depth)
    ensures ok == (answer.Nodes? && !answer.hasPeers)
    ensures ok ==> Requested(old(candidates.usefulNodes), candidates.usefulNodes, answer.nodes,
                             candidates.infoHash, candidates.limit, r.depth, more)
    ensures !ok ==> more == []
    ensures answer.NoAnswer? ==> FirstMarked(old(candidates.usefulNodes), candidates.usefulNodes, r.addr, now, None)
    ensures !ok && !answer.NoAnswer? ==> candidates.usefulNodes == old(candidates.usefulNodes)
  {
    match answer
    case ErrorResponse => return false, [];
    case NoAnswer =>
      var found := candidates.MarkNode(r.addr, now, None);
      return false, [];
    case Nodes(nodes, hasPeers) =>
      if hasPeers { return false, []; }
      more := RequestNodes(candidates, nodes, r.depth);
      ok := true;
  }

  // `find_node_for_routing_table` ends, however the steps of the requests interleave and
  // whatever is answered: no request runs deeper than the limit, each one that was started
  // is counted once, and at most 32 candidates are known in the end, none twice.
  method FindNodeForRoutingTable(table: RT.Table, target: Id20, addrs: seq<SocketAddr>)
    returns (successes: nat, errors: nat, ghost started: seq<LookupRequest>, ghost known: seq<UsefulNode>)
    requires table.Valid()
    modifies table, table.buckets
    ensures table.Valid()
    ensures WithinDepth(started) && successes + errors == |started| >= |addrs|
    ensures |known| <= 32 && DistinctIds(known)
    ensures forall i :: 0 <= i < |addrs| ==> started[i] == LookupRequest(None, addrs[i], 0)
  {
    hide Open, Count, WithinDepth, Requested, OneDeeper, Bounded, Decreases, Steps, AfterAnswer, FirstMarked,
      NL.Marked, RT.Remembered, RT.NoneBad;
    var candidates := new Candidates(target, MAX_DEPTH, USEFUL_NODES_LIMIT);
    var l := InitialRequests(addrs);
    started := l.first;
    successes, errors := 0, 0;
    while l.queue != [] || l.first != [] || l.second != []
      invariant candidates.Valid() && table.Valid() && candidates.limit == USEFUL_NODES_LIMIT
      invariant Bounded(l) && WithinDepth(started)
      invariant successes + errors + |l.first| + |l.second| == |started|
      invariant |started| >= |addrs| && forall i :: 0 <= i < |addrs| ==> started[i] == LookupRequest(None, addrs[i], 0)
      decreases Open(l, 0), Open(l, 1), Open(l, 2), Open(l, 3), Open(l, 4), Steps(l)
    {
      var running := |l.first| + |l.second|;
      var pick: nat :| pick < 1 + running && (l.queue == [] ==> pick > 0) && (running == 0 ==> pick == 0);
      ghost var was := l;
      var answer: Answer, now: nat := *, *;
      if pick == 0 {
        TakeDecreases(l);
        StartedGrows(started, l);
        var r := l.queue[0];
        started := started + [r];
        if r.id.Some? {
          OnRequestStart(table, r.id.value, r.addr, now);
        }
        l := Take(l);
      } else if pick <= |l.first| {
        AdvanceDecreases(l, pick - 1);
        FirstAnswer(candidates, table, l.first[pick - 1], answer, now);
        l := Advance(l, pick - 1);
      } else {
        var i := pick - 1 - |l.first|;
        var ok, more := SecondAnswer(candidates, l.second[i], answer, now);
        FinishDecreases(l, i, more);
        l := Finish(l, i, more);
        if ok { successes := successes + 1; } else { errors := errors + 1; }
      }
      LexicographicSteps(was, l);
    }
    known := candidates.usefulNodes;
  }

  // The decrease, spelled out for the depths there are.
  lemma LexicographicSteps(l: Lookup, l': Lookup)
    requires Decreases(l, l')
    ensures || Open(l', 0) < Open(l, 0)
            || (Open(l', 0) == Open(l, 0) && Open(l', 1) < Open(l, 1))
            || (Open(l', 0) == Open(l, 0) && Open(l', 1) == Open(l, 1) && Open(l', 2) < Open(l, 2))
            || (Open(l', 0) == Open(l, 0) && Open(l', 1) == Open(l, 1) && Open(l', 2) == Open(l, 2)
                && Open(l', 3) < Open(l, 3))
            || (Open(l', 0) == Open(l, 0) && Open(l', 1) == Open(l, 1) && Open(l', 2) == Open(l, 2)
                && Open(l', 3) == Open(l, 3)
                && (Open(l', 4) < Open(l, 4) || (Open(l', 4) == Open(l, 4) && Steps(l') < Steps(l))))
  {
    hide Open, Steps;
  }

  lemma StartedGrows(started: seq<LookupRequest>, l: Lookup)
    requires WithinDepth(started) && Bounded(l) && l.queue != []
    ensures WithinDepth(started + [l.queue[0]])
  {
  }

  // The initial requests run from the start, at depth zero.
  method InitialRequests(addrs: seq<SocketAddr>) returns (l: Lookup)
    ensures Bounded(l) && l.queue == [] && l.second == [] && |l.first| == |addrs| && WithinDepth(l.first)
    ensures forall i :: 0 <= i < |addrs| ==> l.first[i] == LookupRequest(None, addrs[i], 0)
  {
    var first: seq<LookupRequest> := [];
    var i := 0;
    while i < |addrs|
      invariant 0 <= i == |first| <= |addrs|
      invariant forall k :: 0 <= k < i ==> first[k] == LookupRequest(None, addrs[k], 0)
    {
      first := first + [LookupRequest(None, addrs[i], 0)];
      i := i + 1;
    }
    l := Lookup([], first, []);
  }
}
