// The nodes of a routing table, and sequences of them kept in ascending order of id.
module NodeList {
  import opened Wrappers
  import opened HashId
  import opened SocketAddrs

  type Addr = SocketAddr

  // `RoutingTableNode`; a time is a count of ticks.
  datatype Node = Node(
    id: Id20, addr: Addr,
    lastRequest: Option<nat>, lastResponse: Option<nat>, lastQuery: Option<nat>, errorsInARow: nat)

  function FreshNode(id: Id20, addr: Addr): Node { Node(id, addr, None, None, None, 0) }

  // The only status that inserting looks for; it does not depend on the clock.
  predicate IsBad(n: Node) { n.lastRequest.Some? && n.errorsInARow >= 2 }

  function Key(n: Node): nat { Num(n.id) }

  ghost predicate Sorted(s: seq<Node>) {
    forall i, j :: 0 <= i < j < |s| ==> Key(s[i]) < Key(s[j])
  }

  predicate HasId(s: seq<Node>, id: Id20) { exists n :: n in s && n.id == id }

  lemma HasKey(s: seq<Node>, id: Id20)
    ensures HasId(s, id) <==> exists i :: 0 <= i < |s| && Key(s[i]) == Num(id)
  {
    forall i | 0 <= i < |s| && Key(s[i]) == Num(id) ensures s[i].id == id { NumInjective(s[i].id, id); }
  }

  // Where a node of a new id goes in an ascending sequence.
  function InsertSorted(s: seq<Node>, n: Node): (r: seq<Node>)
    ensures |r| == |s| + 1
  {
    if s == [] then [n]
    else if Key(s[|s| - 1]) <= Key(n) then s + [n]
    else InsertSorted(s[..|s| - 1], n) + [s[|s| - 1]]
  }

  lemma {:induction false} InsertSortedMembers(s: seq<Node>, n: Node, m: Node)
    ensures m in InsertSorted(s, n) <==> m in s || m == n
  {
    if s != [] && Key(s[|s| - 1]) > Key(n) {
      InsertSortedMembers(s[..|s| - 1], n, m);
      assert s == s[..|s| - 1] + [s[|s| - 1]];
    }
  }

  lemma {:induction false} InsertSortedKeepsSorted(s: seq<Node>, n: Node)
    requires Sorted(s) && !HasId(s, n.id)
    ensures Sorted(InsertSorted(s, n))
  {
    HasKey(s, n.id);
    if s != [] && Key(s[|s| - 1]) > Key(n) {
      var front, last := s[..|s| - 1], s[|s| - 1];
      InsertSortedKeepsSorted(front, n);
      var r := InsertSorted(front, n);
      forall i | 0 <= i < |r| ensures Key(r[i]) < Key(last) {
        InsertSortedMembers(front, n, r[i]);
      }
    }
  }

  // Inserting into the middle of a longer ascending sequence.
  lemma {:induction false} InsertBetween(before: seq<Node>, s: seq<Node>, after: seq<Node>, n: Node)
    requires forall i :: 0 <= i < |before| ==> Key(before[i]) < Key(n)
    requires forall i :: 0 <= i < |after| ==> Key(n) < Key(after[i])
    ensures InsertSorted(before + s + after, n) == before + InsertSorted(s, n) + after
  {
    var all := before + s + after;
    if after != [] {
      InsertBetween(before, s, after[..|after| - 1], n);
      assert all[..|all| - 1] == before + s + after[..|after| - 1];
    } else if s != [] && Key(s[|s| - 1]) > Key(n) {
      InsertBetween(before, s[..|s| - 1], after, n);
      assert all[..|all| - 1] == before + s[..|s| - 1] + after;
    } else {
      assert all == before + s;
    }
  }

  // `sort_by_key` on the id, which keeps the order of equal keys.
  function SortById(s: seq<Node>): (r: seq<Node>)
    ensures |r| == |s|
  {
    if s == [] then [] else InsertSorted(SortById(s[..|s| - 1]), s[|s| - 1])
  }

  lemma {:induction false} SortSorted(s: seq<Node>)
    requires Sorted(s)
    ensures SortById(s) == s
  {
    if s != [] { SortSorted(s[..|s| - 1]); }
  }

  // Sorting after a push is inserting.
  lemma SortAfterPush(s: seq<Node>, n: Node)
    requires Sorted(s)
    ensures SortById(s + [n]) == InsertSorted(s, n)
  {
    assert (s + [n])[..|s|] == s;
    SortSorted(s);
  }

  lemma SortSnoc(s: seq<Node>, x: Node)
    ensures SortById(s + [x]) == InsertSorted(SortById(s), x)
  {
    assert (s + [x])[..|s|] == s;
  }

  // Sorting after one node was replaced is removing the old and inserting the new.
  lemma {:induction false} SortAfterReplace(s: seq<Node>, k: nat, n: Node)
    requires Sorted(s) && k < |s| && (forall i :: 0 <= i < |s| ==> Key(s[i]) != Key(n))
    ensures SortById(s[k := n]) == InsertSorted(s[..k] + s[k + 1..], n)
  {
    hide InsertSorted, SortById, Key;
    var last := |s| - 1;
    var front, x := s[..last], s[last];
    if k == last {
      SortAfterPush(front, n);
      assert s[k := n] == front + [n] && s[..k] + s[k + 1..] == front;
    } else {
      SortAfterReplace(front, k, n);
      assert s[k := n] == front[k := n] + [x];
      SortSnoc(front[k := n], x);
      var rest := front[..k] + front[k + 1..];
      assert s[..k] + s[k + 1..] == rest + [x];
      InsertLarger(rest, n, x);
    }
  }

  // Two insertions of different keys commute when the second key is above the sequence.
  lemma InsertLarger(s: seq<Node>, n: Node, x: Node)
    requires forall i :: 0 <= i < |s| ==> Key(s[i]) < Key(x)
    requires Key(n) != Key(x)
    ensures InsertSorted(InsertSorted(s, n), x) == InsertSorted(s + [x], n)
  {
    assert (s + [x])[..|s|] == s;
    if Key(x) > Key(n) {
      InsertSortedMembers(s, n, InsertSorted(s, n)[|s|]);
    } else {
      InsertAtEnd(s, n);
    }
  }

  lemma InsertAtEnd(s: seq<Node>, n: Node)
    requires forall i :: 0 <= i < |s| ==> Key(s[i]) < Key(n)
    ensures InsertSorted(s, n) == s + [n]
  {
  }

  // An ascending sequence of numbers spreads at least as far as it is long.
  lemma {:induction false} SortedSpread(s: seq<Node>)
    requires Sorted(s) && |s| > 0
    ensures Key(s[|s| - 1]) - Key(s[0]) >= |s| - 1
  {
    if |s| > 1 { SortedSpread(s[..|s| - 1]); }
  }

  // What the table does to a node it knows.
  datatype Mark = OutgoingRequest(at: nat) | LastQuery(at: nat) | Response(at: nat) | Error

  function Marked(n: Node, m: Mark): (r: Node)
    ensures r.id == n.id && r.addr == n.addr
  {
    match m
    case OutgoingRequest(now) => n.(lastRequest := Some(now))
    case LastQuery(now) => n.(lastQuery := Some(now))
    case Response(now) =>
      n.(lastResponse := Some(now), errorsInARow := 0,
         lastRequest := if n.lastRequest.None? then Some(now) else n.lastRequest)
    case Error => n.(errorsInARow := n.errorsInARow + 1)
  }

  // ---------------------------------------------------------------- what the marks add up to

  // A node after a sequence of marks.
  function AfterMarks(n: Node, marks: seq<Mark>): (r: Node)
    ensures r.id == n.id && r.addr == n.addr
  {
    if marks == [] then n else Marked(AfterMarks(n, marks[..|marks| - 1]), marks[|marks| - 1])
  }

  // The errors after the last response.
  ghost function ErrorsInARow(marks: seq<Mark>): set<nat> {
    set i: nat | i < |marks| && marks[i].Error? && forall j :: i < j < |marks| ==> !marks[j].Response?
  }

  lemma ErrorsInARowSnoc(marks: seq<Mark>, m: Mark)
    ensures ErrorsInARow(marks + [m]) ==
              if m.Response? then {} else if m.Error? then ErrorsInARow(marks) + {|marks|} else ErrorsInARow(marks)
  {
    var all := marks + [m];
    assert all[|marks|] == m;
    forall i: nat | i < |marks| && marks[i].Error?
      ensures i in ErrorsInARow(all) <==> !m.Response? && i in ErrorsInARow(marks)
    {
      if i in ErrorsInARow(all) {
        forall j | i < j < |marks| ensures !marks[j].Response? { assert !all[j].Response?; }
      }
    }
  }

  // After any marks a new node has seen as many errors in a row as there are errors after the
  // last response.
  lemma {:induction false} ErrorsInARowIs(id: Id20, addr: Addr, marks: seq<Mark>)
    ensures AfterMarks(FreshNode(id, addr), marks).errorsInARow == |ErrorsInARow(marks)|
  {
    if marks != [] {
      var k := |marks| - 1;
      var before := marks[..k];
      ErrorsInARowIs(id, addr, before);
      ErrorsInARowSnoc(before, marks[k]);
      assert before + [marks[k]] == marks;
      assert k !in ErrorsInARow(before);
    }
  }

  // It remembers the last response and the last query.
  lemma {:induction false} LastResponseIs(id: Id20, addr: Addr, marks: seq<Mark>, i: nat)
    requires i < |marks| && marks[i].Response? && forall j :: i < j < |marks| ==> !marks[j].Response?
    ensures AfterMarks(FreshNode(id, addr), marks).lastResponse == Some(marks[i].at)
  {
    var k := |marks| - 1;
    if i < k { LastResponseIs(id, addr, marks[..k], i); }
  }

  lemma {:induction false} LastQueryIs(id: Id20, addr: Addr, marks: seq<Mark>, i: nat)
    requires i < |marks| && marks[i].LastQuery? && forall j :: i < j < |marks| ==> !marks[j].LastQuery?
    ensures AfterMarks(FreshNode(id, addr), marks).lastQuery == Some(marks[i].at)
  {
    var k := |marks| - 1;
    if i < k { LastQueryIs(id, addr, marks[..k], i); }
  }

  // What it never had is not remembered.
  lemma {:induction false} NeverHappened(id: Id20, addr: Addr, marks: seq<Mark>)
    ensures var n := AfterMarks(FreshNode(id, addr), marks);
            && ((forall i :: 0 <= i < |marks| ==> !marks[i].Response?) ==> n.lastResponse.None?)
            && ((forall i :: 0 <= i < |marks| ==> !marks[i].LastQuery?) ==> n.lastQuery.None?)
  {
    if marks != [] { NeverHappened(id, addr, marks[..|marks| - 1]); }
  }

  // A request or a response makes it a requested node.
  lemma {:induction false} RequestedIff(id: Id20, addr: Addr, marks: seq<Mark>)
    ensures AfterMarks(FreshNode(id, addr), marks).lastRequest.Some? <==>
            exists i :: 0 <= i < |marks| && (marks[i].OutgoingRequest? || marks[i].Response?)
  {
    if marks != [] {
      var k := |marks| - 1;
      RequestedIff(id, addr, marks[..k]);
      assert forall i :: 0 <= i < k ==> marks[i] == marks[..k][i];
    }
  }

  // It remembers the last request made to it.
  lemma {:induction false} LastRequestIs(id: Id20, addr: Addr, marks: seq<Mark>, i: nat)
    requires i < |marks| && marks[i].OutgoingRequest? && forall j :: i < j < |marks| ==> !marks[j].OutgoingRequest?
    ensures AfterMarks(FreshNode(id, addr), marks).lastRequest == Some(marks[i].at)
  {
    var k := |marks| - 1;
    if i < k { LastRequestIs(id, addr, marks[..k], i); }
  }

  // With no request made to it, its first response stands for one.
  lemma {:induction false} FirstResponseIsRequest(id: Id20, addr: Addr, marks: seq<Mark>, i: nat)
    requires i < |marks| && marks[i].Response? && forall j :: 0 <= j < i ==> !marks[j].Response?
    requires forall j :: 0 <= j < |marks| ==> !marks[j].OutgoingRequest?
    ensures AfterMarks(FreshNode(id, addr), marks).lastRequest == Some(marks[i].at)
  {
    var k := |marks| - 1;
    if i < k {
      FirstResponseIsRequest(id, addr, marks[..k], i);
    } else {
      RequestedIff(id, addr, marks[..k]);
    }
  }

  // So a node is bad if and only if it was requested or responded, and two errors came after
  // its last response.
  lemma BadIff(id: Id20, addr: Addr, marks: seq<Mark>)
    ensures IsBad(AfterMarks(FreshNode(id, addr), marks)) <==>
            && (exists i :: 0 <= i < |marks| && (marks[i].OutgoingRequest? || marks[i].Response?))
            && TwoErrorsInARow(marks)
  {
    ErrorsInARowIs(id, addr, marks);
    RequestedIff(id, addr, marks);
    TwoErrors(marks);
  }

  ghost predicate TwoErrorsInARow(marks: seq<Mark>) {
    exists i, j :: && 0 <= i < j < |marks| && marks[i].Error? && marks[j].Error?
                   && forall k :: i < k < |marks| ==> !marks[k].Response?
  }

  lemma TwoErrors(marks: seq<Mark>)
    ensures TwoErrorsInARow(marks) <==> |ErrorsInARow(marks)| >= 2
  {
    var s := ErrorsInARow(marks);
    if TwoErrorsInARow(marks) {
      var i, j :| && 0 <= i < j < |marks| && marks[i].Error? && marks[j].Error?
                  && forall k :: i < k < |marks| ==> !marks[k].Response?;
      assert {i, j} <= s;
      assert s == {i, j} + (s - {i, j});
    }
    if |s| >= 2 {
      var i: nat :| i in s;
      assert s - {i} == {} ==> s == {i};
      var j: nat :| j in s - {i};
      var first, second := if i < j then i else j, if i < j then j else i;
      assert 0 <= first < second < |marks| && marks[first].Error? && marks[second].Error?;
    }
  }

  // Applies a mark to the node of an id, if there is one.
  function MarkIn(s: seq<Node>, id: Id20, m: Mark): (r: seq<Node>)
    ensures |r| == |s|
  {
    seq(|s|, i requires 0 <= i < |s| => if s[i].id == id then Marked(s[i], m) else s[i])
  }

  // ---------------------------------------------------------------- as a map

  // The map that an ascending sequence of nodes stands for.
  function AsMap(s: seq<Node>): map<Id20, Node> {
    if s == [] then map[] else AsMap(s[..|s| - 1])[s[|s| - 1].id := s[|s| - 1]]
  }

  lemma {:induction false} AsMapHolds(s: seq<Node>)
    requires Sorted(s)
    ensures forall id: Id20 :: id in AsMap(s) <==> HasId(s, id)
    ensures forall k :: 0 <= k < |s| ==> s[k].id in AsMap(s) && AsMap(s)[s[k].id] == s[k]
    ensures |AsMap(s)| == |s|
  {
    hide Num, HasId;
    HasIdSnoc(s);
    if s != [] {
      var front, last := s[..|s| - 1], s[|s| - 1];
      AsMapHolds(front);
      IdsDiffer(s);
      assert !HasId(front, last.id);
    }
  }

  lemma HasIdSnoc(s: seq<Node>)
    ensures s == [] ==> forall id: Id20 :: !HasId(s, id)
    ensures s != [] ==> forall id: Id20 :: HasId(s, id) <==> HasId(s[..|s| - 1], id) || s[|s| - 1].id == id
  {
    hide Num;
    if s != [] { assert s == s[..|s| - 1] + [s[|s| - 1]]; }
  }

  lemma IdsDiffer(s: seq<Node>)
    requires Sorted(s)
    ensures forall i, j :: 0 <= i < |s| && 0 <= j < |s| && i != j ==> s[i].id != s[j].id
    ensures s != [] ==> !HasId(s[..|s| - 1], s[|s| - 1].id)
  {
    hide Num;
    forall i, j | 0 <= i < |s| && 0 <= j < |s| && i != j ensures s[i].id != s[j].id {
      assert Key(s[i]) != Key(s[j]);
    }
  }

  // Maps of ascending sequences are equal when the sequences hold the same nodes.
  lemma AsMapSame(s: seq<Node>, m: map<Id20, Node>)
    requires Sorted(s) && |s| == |m|
    requires forall k :: 0 <= k < |s| ==> s[k].id in m && m[s[k].id] == s[k]
    ensures AsMap(s) == m
  {
    hide Num;
    AsMapHolds(s);
    assert AsMap(s).Keys <= m.Keys;
    SubsetOfSameSize(AsMap(s).Keys, m.Keys);
  }

  lemma SubsetOfSameSize<T>(a: set<T>, b: set<T>)
    requires a <= b && |a| == |b|
    ensures a == b
  {
    assert b == a + (b - a);
    assert |b - a| == 0;
  }

  lemma InsertIsMapInsert(s: seq<Node>, n: Node)
    requires Sorted(s) && !HasId(s, n.id)
    ensures AsMap(InsertSorted(s, n)) == AsMap(s)[n.id := n]
  {
    hide Num;
    AsMapHolds(s);
    InsertSortedKeepsSorted(s, n);
    var r := InsertSorted(s, n);
    forall k | 0 <= k < |r|
      ensures r[k].id in AsMap(s)[n.id := n] && AsMap(s)[n.id := n][r[k].id] == r[k]
    {
      InsertSortedMembers(s, n, r[k]);
    }
    AsMapSame(r, AsMap(s)[n.id := n]);
  }

  lemma WithoutKeepsSorted(s: seq<Node>, k: nat)
    requires Sorted(s) && k < |s|
    ensures Sorted(WithoutIndex(s, k))
    ensures !HasId(WithoutIndex(s, k), s[k].id)
    ensures forall i :: 0 <= i < |s| - 1 ==> WithoutIndex(s, k)[i] == s[if i < k then i else i + 1]
    ensures forall i :: 0 <= i < |s| - 1 ==> WithoutIndex(s, k)[i].id != s[k].id
  {
    hide Num;
    IdsDiffer(s);
    var r := WithoutIndex(s, k);
    assert forall i :: 0 <= i < |r| ==> r[i] == s[if i < k then i else i + 1];
  }

  lemma WithoutIsMapRemove(s: seq<Node>, k: nat)
    requires Sorted(s) && k < |s|
    ensures AsMap(WithoutIndex(s, k)) == AsMap(s) - {s[k].id}
  {
    hide Num, Sorted, HasId, AsMap, WithoutIndex;
    AsMapHolds(s);
    WithoutKeepsSorted(s, k);
    var m := AsMap(s) - {s[k].id};
    assert m.Keys == AsMap(s).Keys - {s[k].id};
    AsMapSame(WithoutIndex(s, k), m);
  }

  lemma MarkKeepsSorted(s: seq<Node>, id: Id20, m: Mark)
    requires Sorted(s)
    ensures Sorted(MarkIn(s, id, m))
  {
    hide Num;
    var r := MarkIn(s, id, m);
    assert forall k :: 0 <= k < |s| ==> Key(r[k]) == Key(s[k]);
  }

  lemma MarkIsMapUpdate(s: seq<Node>, id: Id20, m: Mark)
    requires Sorted(s)
    ensures AsMap(MarkIn(s, id, m)) == if id in AsMap(s) then AsMap(s)[id := Marked(AsMap(s)[id], m)] else AsMap(s)
  {
    hide Num, Sorted, HasId, AsMap;
    AsMapHolds(s);
    MarkKeepsSorted(s, id, m);
    var want := if id in AsMap(s) then AsMap(s)[id := Marked(AsMap(s)[id], m)] else AsMap(s);
    assert want.Keys == AsMap(s).Keys;
    AsMapSame(MarkIn(s, id, m), want);
  }

  // What the four results of an insertion mean for the map.
  datatype InsertResult = WasExisting | ReplacedBad(evicted: Node) | Added | Ignored

  ghost predicate Inserted(before: seq<Node>, after: seq<Node>, n: Node, r: InsertResult) {
    match r
    case WasExisting => HasId(before, n.id) && after == before
    case Ignored => !HasId(before, n.id) && after == before
    case Added => !HasId(before, n.id) && after == InsertSorted(before, n)
    case ReplacedBad(bad) =>
      && !HasId(before, n.id) && bad.lastRequest.Some? && bad.errorsInARow >= 2
      && exists at :: 0 <= at < |before| && before[at] == bad && after == InsertSorted(WithoutIndex(before, at), n)
  }

  function MapInserted(m: map<Id20, Node>, n: Node, r: InsertResult): map<Id20, Node> {
    match r
    case WasExisting => m
    case Ignored => m
    case Added => m[n.id := n]
    case ReplacedBad(bad) => (m - {bad.id})[n.id := n]
  }

  lemma InsertedIsMapUpdate(before: seq<Node>, after: seq<Node>, n: Node, r: InsertResult)
    requires Sorted(before) && Inserted(before, after, n, r)
    ensures Sorted(after)
    ensures r.WasExisting? <==> n.id in AsMap(before)
    ensures AsMap(after) == MapInserted(AsMap(before), n, r)
    ensures r.ReplacedBad? ==> r.evicted.id in AsMap(before) && AsMap(before)[r.evicted.id] == r.evicted
  {
    hide Num, Sorted, HasId, AsMap, WithoutIndex;
    AsMapHolds(before);
    match r
    case WasExisting =>
    case Ignored =>
    case Added =>
      InsertIsMapInsert(before, n);
      InsertSortedKeepsSorted(before, n);
    case ReplacedBad(bad) =>
      var at :| 0 <= at < |before| && before[at] == bad && after == InsertSorted(WithoutIndex(before, at), n);
      WithoutIsMapRemove(before, at);
      WithoutKeepsSorted(before, at);
      AsMapHolds(WithoutIndex(before, at));
      InsertIsMapInsert(WithoutIndex(before, at), n);
      InsertSortedKeepsSorted(WithoutIndex(before, at), n);
  }
}
