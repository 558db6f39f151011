// routing_table.rs: the objects. The bucket tree grows in place, the iterator walks it with
// a stack, and the table counts insertions.
module RoutingTable {
  import opened Wrappers
  import opened HashId
  import opened NodeList
  import opened BucketTree

  // The position of a node of an id, or of a bad node.
  method FindId(nodes: seq<Node>, id: Id20) returns (r: Option<nat>)
    ensures r.None? <==> !HasId(nodes, id)
    ensures r.Some? ==> r.value < |nodes| && nodes[r.value].id == id
  {
    var i := 0;
    while i < |nodes|
      invariant 0 <= i <= |nodes| && forall k :: 0 <= k < i ==> nodes[k].id != id
    {
      if nodes[i].id == id { return Some(i); }
      i := i + 1;
    }
    r := None;
  }

  method FindBad(nodes: seq<Node>) returns (r: Option<nat>)
    ensures r.None? <==> forall k :: 0 <= k < |nodes| ==> nodes[k].lastRequest.None? || nodes[k].errorsInARow < 2
    ensures r.Some? ==>
              r.value < |nodes| && nodes[r.value].lastRequest.Some? && nodes[r.value].errorsInARow >= 2
  {
    var i := 0;
    while i < |nodes|
      invariant 0 <= i <= |nodes| && forall k :: 0 <= k < i ==> !IsBad(nodes[k])
    {
      if IsBad(nodes[i]) { return Some(i); }
      i := i + 1;
    }
    r := None;
  }

  // Drains a bucket into the halves below and from a bound.
  method Drain(nodes: seq<Node>, bound: nat) returns (ld: seq<Node>, rd: seq<Node>)
    ensures ld == Lower(nodes, bound) && rd == Upper(nodes, bound)
  {
    ld, rd := [], [];
    var i := 0;
    while i < |nodes|
      invariant 0 <= i <= |nodes|
      invariant ld == Lower(nodes[..i], bound) && rd == Upper(nodes[..i], bound)
    {
      assert nodes[..i + 1][..i] == nodes[..i];
      if Key(nodes[i]) < bound { ld := ld + [nodes[i]]; } else { rd := rd + [nodes[i]]; }
      i := i + 1;
    }
    assert nodes[..i] == nodes;
  }

  // No room in the bucket for an id, and none to be made.
  ghost predicate BucketIsFull(leaf: TreeNode, selfId: Id20) {
    && leaf.data.Leaf? && |leaf.data.nodes| == 8
    && !Within(leaf, selfId)
  }

  // What an insertion leaves in the bucket of the id: a new node is only added, or turned
  // away, when there was no bad one to replace; and the one replaced was in that bucket.
  ghost predicate BucketAfter(leaf: TreeNode, r: InsertResult) {
    match r
    case WasExisting => true
    case ReplacedBad(bad) => Within(leaf, bad.id)
    case Added => NoneBad(leaf)
    case Ignored => NoneBad(leaf)
  }

  ghost predicate NoneBad(leaf: TreeNode) {
    leaf.data.Leaf?
    && forall k :: 0 <= k < |leaf.data.nodes| ==>
        leaf.data.nodes[k].lastRequest.None? || leaf.data.nodes[k].errorsInARow < 2
  }

  class Buckets {
    var arena: seq<TreeNode>
    var size: nat
    const maxSize: nat
    ghost const ownId: Id20

    // The tree is well formed, and its size counts its nodes.
    ghost predicate Valid()
      reads this
    {
      && |arena| > 0 && WF(arena, ownId) && Linked(arena)
      && size == |Contents(arena, 0)| <= maxSize
    }

    ghost function Nodes(): seq<Node>
      requires Valid()
      reads this
    {
      Contents(arena, 0)
    }

    constructor (maxSize: nat, ghost ownId: Id20)
      ensures Valid() && Nodes() == [] && this.maxSize == maxSize && this.ownId == ownId
    {
      this.arena, this.size, this.maxSize, this.ownId := NewArena(), 0, maxSize, ownId;
      new;
      NewArenaIsWF(ownId);
      IsLinked(arena, ownId);
    }

    // `get_leaf`: descends to the one leaf whose range holds the id.
    method GetLeaf(id: Id20) returns (idx: nat)
      requires Valid()
      ensures idx < |arena| && idx == LeafFor(arena, id)
      ensures HasId(Nodes(), id) <==> HasId(arena[idx].data.nodes, id)
    {
      idx := 0;
      while arena[idx].data.LeftRight?
        invariant idx < |arena| && LeafFor(arena, id) == Descend(arena, idx, id)
        decreases |arena| - idx
      {
        var left := arena[idx].data.left;
        if Num(id) >= Num(arena[left].start) && Num(id) <= Num(arena[left].end) {
          idx := left;
        } else {
          idx := arena[idx].data.right;
        }
      }
      FoundInLeafIff(arena, ownId, id);
    }

    // `get_mut` and what is done through it: the node of an id is changed in place, and
    // nothing else. The result says whether the id is in the tree.
    method Mark(id: Id20, m: Mark) returns (found: bool)
      requires Valid()
      modifies this
      ensures Valid() && size == old(size)
      ensures found <==> HasId(old(Nodes()), id)
      ensures Nodes() == MarkIn(old(Nodes()), id, m)
    {
      hide WF, Linked, Contents, HasId, LeafFor;
      var idx := GetLeaf(id);
      var at := FindId(arena[idx].data.nodes, id);
      MarkInLeaf(arena, ownId, id, m);
      if at.None? {
        MarkAbsent(arena[idx].data.nodes, id, m);
        assert arena[idx].(data := Leaf(arena[idx].data.nodes)) == arena[idx];
        assert WithNodes(arena, idx, arena[idx].data.nodes) == arena;
        return false;
      }
      MarkAt(arena[idx], ownId, arena, idx, at.value, id, m);
      var nodes := arena[idx].data.nodes;
      arena := WithNodes(arena, idx, nodes[at.value := Marked(nodes[at.value], m)]);
      found := true;
    }

    // `add_node`.
    method AddNode(selfId: Id20, id: Id20, addr: Addr) returns (r: InsertResult)
      requires Valid() && selfId == ownId
      modifies this
      ensures Valid()
      ensures Inserted(old(Nodes()), Nodes(), FreshNode(id, addr), r)
      ensures r.Added? ==> old(size) < maxSize
      ensures r.Ignored? ==> size == maxSize || BucketIsFull(arena[LeafFor(arena, id)], ownId)
      ensures BucketAfter(arena[LeafFor(arena, id)], r)
    {
      var idx := GetLeaf(id);
      r := InsertIntoLeaf(idx, selfId, id, addr);
    }

    // The insertion loop: it splits the leaf until the id's half has room. Each round has
    // one bit less, and none splits a range of fewer than four bits.
    method InsertIntoLeaf(start: nat, selfId: Id20, id: Id20, addr: Addr) returns (r: InsertResult)
      requires Valid() && selfId == ownId && start == LeafFor(arena, id)
      modifies this
      ensures Valid()
      ensures Inserted(old(Nodes()), Nodes(), FreshNode(id, addr), r)
      ensures r.Added? ==> old(size) < maxSize
      ensures r.Ignored? ==> size == maxSize || BucketIsFull(arena[LeafFor(arena, id)], ownId)
      ensures BucketAfter(arena[LeafFor(arena, id)], r)
    {
      hide WF, Linked, Contents, Inserted, BucketIsFull, BucketAfter, LeafFor;
      var idx := start;
      while true
        invariant Valid() && idx == LeafFor(arena, id) && idx < |arena|
        invariant Nodes() == old(Nodes()) && size == old(size)
        decreases arena[idx].bits
      {
        var done := TryInsert(idx, selfId, id, addr);
        if done.Some? { return done.value; }
        idx := SplitLeaf(idx, id);
      }
    }

    // Everything a round does before splitting. It gives up only on a full bucket without
    // bad nodes that holds our own id.
    method TryInsert(idx: nat, selfId: Id20, id: Id20, addr: Addr) returns (r: Option<InsertResult>)
      requires Valid() && selfId == ownId && idx == LeafFor(arena, id)
      modifies this
      ensures Valid()
      ensures r.Some? ==>
                && Inserted(old(Nodes()), Nodes(), FreshNode(id, addr), r.value)
                && (r.value.Added? ==> old(size) < maxSize)
                && (r.value.Ignored? ==> size == maxSize || BucketIsFull(arena[LeafFor(arena, id)], ownId))
                && BucketAfter(arena[LeafFor(arena, id)], r.value)
      ensures r.None? ==>
                && arena == old(arena) && size == old(size)
                && |arena[idx].data.nodes| == BUCKET_SIZE && !HasId(arena[idx].data.nodes, id)
                && Within(arena[idx], ownId)
    {
      hide WF, Linked, Contents, HasId, LeafFor, Num, Sorted, InsertSorted, SortById, WithoutIndex, AllBelow, AllAbove;
      FoundInLeafIff(arena, ownId, id);
      LeafIsOk(arena, ownId, id);
      var nodes := arena[idx].data.nodes;
      var existing := FindId(nodes, id);
      if existing.Some? { return Some(WasExisting); }
      var newNode := FreshNode(id, addr);
      var bad := FindBad(nodes);
      if bad.Some? {
        ghost var at := ReplaceInLeaf(arena, ownId, bad.value, newNode);
        LeafStays(arena, ownId, id, SortById(nodes[bad.value := newNode]));
        arena := WithNodes(arena, idx, SortById(nodes[bad.value := newNode]));
        return Some(ReplacedBad(nodes[bad.value]));
      }
      if size == maxSize { return Some(Ignored); }
      if |nodes| < BUCKET_SIZE {
        SortAfterPush(nodes, newNode);
        BucketTree.InsertIntoLeaf(arena, ownId, newNode);
        LeafStays(arena, ownId, id, SortById(nodes + [newNode]));
        NoneBadAfterInsert(nodes, newNode);
        arena := WithNodes(arena, idx, SortById(nodes + [newNode]));
        size := size + 1;
        return Some(Added);
      }
      if Num(selfId) < Num(arena[idx].start) || Num(selfId) > Num(arena[idx].end) { return Some(Ignored); }
      r := None;
    }

    // The two halves are pushed to the arena and replace the leaf; the contents stay.
    method SplitLeaf(idx: nat, id: Id20) returns (half: nat)
      requires Valid() && idx == LeafFor(arena, id)
      requires |arena[idx].data.nodes| == BUCKET_SIZE && !HasId(arena[idx].data.nodes, id) && Within(arena[idx], ownId)
      modifies this
      ensures Valid() && Nodes() == old(Nodes()) && size == old(size)
      ensures |arena| == |old(arena)| + 2 <= 315 && half < |arena| && half == LeafFor(arena, id)
      ensures arena[half].bits < old(arena[idx].bits)
    {
      hide WF, Linked, Contents, HasId, LeafFor, Lower, Upper, ComputeSplitStartEnd;
      SplitForId(arena, ownId, id);
      var leaf := arena[idx];
      var (le, rs) := ComputeSplitStartEnd(leaf.start, leaf.end, leaf.bits);
      assert Num(leaf.start) < Num(le) && Num(le) < Num(rs) && Num(rs) < Num(leaf.end);
      var ld, rd := Drain(leaf.data.nodes, Num(rs));
      var left := TreeNode(leaf.bits - 1, leaf.start, le, Leaf(ld));
      var right := TreeNode(leaf.bits - 1, rs, leaf.end, Leaf(rd));
      ghost var was := arena;
      var leftIdx := |arena|;
      arena := arena + [left];
      var rightIdx := |arena|;
      arena := arena + [right];
      arena := arena[idx := arena[idx].(data := LeftRight(leftIdx, rightIdx))];
      assert arena == Split(was, idx);
      half := if Num(id) < Num(rs) then leftIdx else rightIdx;
    }
  }

  lemma NoneBadAfterInsert(nodes: seq<Node>, n: Node)
    requires n.lastRequest.None?
    requires forall k :: 0 <= k < |nodes| ==> nodes[k].lastRequest.None? || nodes[k].errorsInARow < 2
    ensures var r := InsertSorted(nodes, n); forall k :: 0 <= k < |r| ==>
              r[k].lastRequest.None? || r[k].errorsInARow < 2
  {
    var r := InsertSorted(nodes, n);
    forall k | 0 <= k < |r| ensures r[k].lastRequest.None? || r[k].errorsInARow < 2 {
      InsertSortedMembers(nodes, n, r[k]);
    }
  }

  // The leaf for an id is a well-formed bucket whose range holds the id.
  lemma LeafIsOk(arena: seq<TreeNode>, selfId: Id20, id: Id20)
    requires WF(arena, selfId) && Linked(arena)
    ensures Within(arena[LeafFor(arena, id)], id) && BucketOk(arena[LeafFor(arena, id)])
  {
    var before, after := AroundLeaf(arena, selfId, id);
  }

  lemma NewArenaIsWF(selfId: Id20)
    ensures WF(NewArena(), selfId)
  {
    NumZero(20);
    NumOnes(20);
    AlignedZero(160);
    assert NodeOk(NewArena(), selfId, 0);
  }

  lemma {:induction false} AlignedZero(k: nat)
    ensures Aligned(0, k)
  {
    if k > 0 { AlignedZero(k - 1); }
  }

  lemma NumOnes(n: nat)
    ensures Num(seq(n, i => 255)) + 1 == Pow2(8 * n)
  {
    OnesAfter([], n);
    assert [] + seq(n, i => 255) == seq(n, i => 255);
  }

  lemma MarkAbsent(nodes: seq<Node>, id: Id20, m: Mark)
    requires !HasId(nodes, id)
    ensures MarkIn(nodes, id, m) == nodes
  {
    assert forall k :: 0 <= k < |nodes| ==> nodes[k].id != id;
  }

  // Marking one node of a bucket is marking the node of its id.
  lemma MarkAt(leaf: TreeNode, selfId: Id20, arena: seq<TreeNode>, idx: nat, at: nat, id: Id20, m: Mark)
    requires WF(arena, selfId) && idx < |arena| && arena[idx] == leaf && leaf.data.Leaf?
    requires at < |leaf.data.nodes| && leaf.data.nodes[at].id == id
    ensures MarkIn(leaf.data.nodes, id, m) == leaf.data.nodes[at := Marked(leaf.data.nodes[at], m)]
  {
    hide Num, Marked;
    assert NodeOk(arena, selfId, idx);
    IdsDiffer(leaf.data.nodes);
  }

  // Splitting the full leaf of an id: what becomes of the arena, and where the id goes.
  lemma SplitForId(arena: seq<TreeNode>, selfId: Id20, id: Id20)
    requires WF(arena, selfId) && Linked(arena)
    requires var leaf := arena[LeafFor(arena, id)];
             |leaf.data.nodes| == BUCKET_SIZE && !HasId(leaf.data.nodes, id) && Within(leaf, selfId)
    ensures var j := LeafFor(arena, id);
            && 4 <= arena[j].bits <= 160 && |arena| <= 313
            && (var (leftEnd, rightStart) := ComputeSplitStartEnd(arena[j].start, arena[j].end, arena[j].bits);
                Num(arena[j].start) < Num(leftEnd) < Num(rightStart) < Num(arena[j].end))
            && WF(Split(arena, j), selfId) && Linked(Split(arena, j))
            && Contents(Split(arena, j), 0) == Contents(arena, 0)
            && (var (_, rightStart) := ComputeSplitStartEnd(arena[j].start, arena[j].end, arena[j].bits);
                LeafFor(Split(arena, j), id) == if Num(id) < Num(rightStart) then |arena| else |arena| + 1)
  {
    hide IsRange, Num, Sorted, HasId, Within, ComputeSplitStartEnd;
    var j := LeafFor(arena, id);
    var before, after := AroundLeaf(arena, selfId, id);
    assert NodeOk(arena, selfId, j);
    FullBucketHasFourBits(arena[j], id);
    SplitKeepsWF(arena, selfId, j);
    SplitLeafIsLast(arena, selfId, j);
    SplitIsHalves(arena[j].start, arena[j].end, arena[j].bits);
    HalfFor(arena, j, id);
  }

  // The id descends into the half that its comparison with the right start picks.
  lemma HalfFor(arena: seq<TreeNode>, j: nat, id: Id20)
    requires j < |arena| && arena[j].data.Leaf? && 2 <= arena[j].bits <= 160
    requires IsRange(arena[j].start, arena[j].end, arena[j].bits) && Within(arena[j], id)
    requires Linked(Split(arena, j))
    ensures var (_, rightStart) := ComputeSplitStartEnd(arena[j].start, arena[j].end, arena[j].bits);
            Descend(Split(arena, j), j, id) == if Num(id) < Num(rightStart) then |arena| else |arena| + 1
  {
    hide IsRange, Num, ComputeSplitStartEnd;
    SplitIsHalves(arena[j].start, arena[j].end, arena[j].bits);
  }

  // ---------------------------------------------------------------- iteration

  // The leaves below node i, from left to right.
  ghost function Leaves(arena: seq<TreeNode>, i: nat): (r: seq<nat>)
    requires Linked(arena) && i < |arena|
    ensures |r| > 0 && forall k :: 0 <= k < |r| ==> r[k] < |arena| && arena[r[k]].data.Leaf?
    decreases |arena| - i
  {
    match arena[i].data
    case Leaf(_) => [i]
    case LeftRight(l, r) => Leaves(arena, l) + Leaves(arena, r)
  }

  // The leaves partition the range of a node, in ascending order.
  lemma {:induction false} LeavesPartition(arena: seq<TreeNode>, selfId: Id20, i: nat)
    requires WF(arena, selfId) && Linked(arena) && i < |arena|
    ensures var s := Leaves(arena, i);
            && arena[s[0]].start == arena[i].start && arena[s[|s| - 1]].end == arena[i].end
            && (forall k :: 0 <= k < |s| ==> Num(arena[s[k]].start) <= Num(arena[s[k]].end))
            && (forall k :: 0 <= k < |s| - 1 ==> Num(arena[s[k]].end) + 1 == Num(arena[s[k + 1]].start))
    decreases |arena| - i
  {
    hide Num, IsRange;
    assert NodeOk(arena, selfId, i);
    if arena[i].data.LeftRight? {
      Children(arena, selfId, i);
      var l, r := arena[i].data.left, arena[i].data.right;
      LeavesPartition(arena, selfId, l);
      LeavesPartition(arena, selfId, r);
      JoinAdjacent(arena, Leaves(arena, l), Leaves(arena, r));
    } else {
      RangeNotEmpty(arena, selfId, i);
    }
  }

  lemma RangeNotEmpty(arena: seq<TreeNode>, selfId: Id20, i: nat)
    requires WF(arena, selfId) && i < |arena|
    ensures Num(arena[i].start) <= Num(arena[i].end)
  {
    assert NodeOk(arena, selfId, i);
  }

  lemma JoinAdjacent(arena: seq<TreeNode>, a: seq<nat>, b: seq<nat>)
    requires |a| > 0 && |b| > 0
    requires forall k :: 0 <= k < |a| ==> a[k] < |arena|
    requires forall k :: 0 <= k < |b| ==> b[k] < |arena|
    requires forall k :: 0 <= k < |a| - 1 ==> Num(arena[a[k]].end) + 1 == Num(arena[a[k + 1]].start)
    requires forall k :: 0 <= k < |b| - 1 ==> Num(arena[b[k]].end) + 1 == Num(arena[b[k + 1]].start)
    requires Num(arena[a[|a| - 1]].end) + 1 == Num(arena[b[0]].start)
    ensures forall k :: 0 <= k < |a| + |b| - 1 ==> Num(arena[(a + b)[k]].end) + 1 == Num(arena[(a + b)[k + 1]].start)
  {
    hide Num;
    forall k | 0 <= k < |a| + |b| - 1
      ensures Num(arena[(a + b)[k]].end) + 1 == Num(arena[(a + b)[k + 1]].start)
    {
      if k < |a| - 1 {
        assert (a + b)[k] == a[k] && (a + b)[k + 1] == a[k + 1];
      } else if k >= |a| {
        assert (a + b)[k] == b[k - |a|] && (a + b)[k + 1] == b[k - |a| + 1];
      }
    }
  }

  ghost function NodesOf(arena: seq<TreeNode>, leaves: seq<nat>): seq<Node>
    requires forall k :: 0 <= k < |leaves| ==> leaves[k] < |arena| && arena[leaves[k]].data.Leaf?
  {
    if leaves == [] then [] else arena[leaves[0]].data.nodes + NodesOf(arena, leaves[1..])
  }

  lemma {:induction false} NodesOfJoin(arena: seq<TreeNode>, a: seq<nat>, b: seq<nat>)
    requires forall k :: 0 <= k < |a| ==> a[k] < |arena| && arena[a[k]].data.Leaf?
    requires forall k :: 0 <= k < |b| ==> b[k] < |arena| && arena[b[k]].data.Leaf?
    ensures NodesOf(arena, a + b) == NodesOf(arena, a) + NodesOf(arena, b)
  {
    if a == [] {
      assert a + b == b;
    } else {
      NodesOfJoin(arena, a[1..], b);
      assert (a + b)[1..] == a[1..] + b;
    }
  }

  lemma {:induction false} LeavesHoldContents(arena: seq<TreeNode>, i: nat)
    requires Linked(arena) && i < |arena|
    ensures NodesOf(arena, Leaves(arena, i)) == Contents(arena, i)
    decreases |arena| - i
  {
    if arena[i].data.LeftRight? {
      var l, r := arena[i].data.left, arena[i].data.right;
      LeavesHoldContents(arena, l);
      LeavesHoldContents(arena, r);
      NodesOfJoin(arena, Leaves(arena, l), Leaves(arena, r));
    } else {
      assert NodesOf(arena, [i]) == arena[i].data.nodes + NodesOf(arena, []);
    }
  }

  // The number of arena nodes below and at node i: what a walk of the stack still costs.
  ghost function Weight(arena: seq<TreeNode>, i: nat): (w: nat)
    requires Linked(arena)
    ensures w > 0
    decreases |arena| - i
  {
    if i >= |arena| then 1
    else
      match arena[i].data
      case Leaf(_) => 1
      case LeftRight(l, r) => 1 + Weight(arena, l) + Weight(arena, r)
  }

  ghost function TotalWeight(arena: seq<TreeNode>, queue: seq<nat>): nat
    requires Linked(arena)
  {
    if queue == [] then 0 else TotalWeight(arena, queue[..|queue| - 1]) + Weight(arena, queue[|queue| - 1])
  }

  // The leaves a stack of nodes has still to yield, the top of the stack first.
  ghost function Pending(arena: seq<TreeNode>, queue: seq<nat>): (r: seq<nat>)
    requires Linked(arena)
    ensures forall k :: 0 <= k < |r| ==> r[k] < |arena| && arena[r[k]].data.Leaf?
  {
    if queue == [] then []
    else
      var top := queue[|queue| - 1];
      (if top < |arena| then Leaves(arena, top) else []) + Pending(arena, queue[..|queue| - 1])
  }

  lemma PendingPush(arena: seq<TreeNode>, rest: seq<nat>, i: nat)
    requires Linked(arena) && i < |arena|
    ensures Pending(arena, rest + [i]) == Leaves(arena, i) + Pending(arena, rest)
    ensures TotalWeight(arena, rest + [i]) == TotalWeight(arena, rest) + Weight(arena, i)
  {
    assert (rest + [i])[..|rest|] == rest;
  }

  // Replacing a split node on the stack by its halves changes nothing but the cost.
  lemma PushHalves(arena: seq<TreeNode>, rest: seq<nat>, i: nat)
    requires Linked(arena) && i < |arena| && arena[i].data.LeftRight?
    ensures var queue' := rest + [arena[i].data.right] + [arena[i].data.left];
            && Pending(arena, queue') == Pending(arena, rest + [i])
            && TotalWeight(arena, queue') < TotalWeight(arena, rest + [i])
  {
    hide Pending, TotalWeight;
    var l, r := arena[i].data.left, arena[i].data.right;
    PendingPush(arena, rest, i);
    PendingPush(arena, rest, r);
    PendingPush(arena, rest + [r], l);
  }

  class BucketTreeIterator {
    const tree: Buckets
    var queue: seq<nat>

    constructor (tree: Buckets)
      requires tree.Valid()
      ensures this.tree == tree
      ensures Pending(tree.arena, queue) == Leaves(tree.arena, 0)
    {
      this.tree, this.queue := tree, [0];
      new;
      PendingPush(tree.arena, [], 0);
      assert [] + [0] == [0];
    }

    // `next` yields the next leaf from the left, and nothing only when all were yielded.
    method Next() returns (r: Option<nat>)
      requires Linked(tree.arena)
      modifies this
      ensures r.None? ==> old(Pending(tree.arena, queue)) == []
      ensures r.Some? ==>
                && r.value < |tree.arena| && tree.arena[r.value].data.Leaf?
                && old(Pending(tree.arena, queue)) == [r.value] + Pending(tree.arena, queue)
    {
      hide Linked, Pending, TotalWeight;
      while |queue| > 0
        invariant Pending(tree.arena, queue) == old(Pending(tree.arena, queue))
        decreases TotalWeight(tree.arena, queue)
      {
        var idx := queue[|queue| - 1];
        ghost var was := queue;
        queue := queue[..|queue| - 1];
        assert was == queue + [idx];
        if idx < |tree.arena| {
          PendingPush(tree.arena, queue, idx);
          match tree.arena[idx].data {
            case Leaf(_) => return Some(idx);
            case LeftRight(left, right) =>
              PushHalves(tree.arena, queue, idx);
              queue := queue + [right];
              queue := queue + [left];
          }
        } else {
          PendingDrop(tree.arena, queue, idx);
        }
      }
      PendingNone(tree.arena);
      r := None;
    }
  }

  // An index past the arena yields nothing.
  lemma PendingDrop(arena: seq<TreeNode>, rest: seq<nat>, i: nat)
    requires Linked(arena) && i >= |arena|
    ensures Pending(arena, rest + [i]) == Pending(arena, rest)
    ensures TotalWeight(arena, rest + [i]) > TotalWeight(arena, rest)
  {
    assert (rest + [i])[..|rest|] == rest;
  }

  lemma PendingNone(arena: seq<TreeNode>)
    requires Linked(arena)
    ensures Pending(arena, []) == []
  {
  }

  // `iter`: all nodes, each once, in strictly ascending order of id.
  method Iter(tree: Buckets) returns (nodes: seq<Node>)
    requires tree.Valid()
    ensures nodes == tree.Nodes() && Sorted(nodes)
  {
    hide Linked, WF, Pending, Leaves, Contents, Sorted, NodesOf;
    var it := new BucketTreeIterator(tree);
    ghost var done: seq<nat> := [];
    nodes := [];
    LeavesHoldContents(tree.arena, 0);
    RootSorted(tree.arena, tree.ownId);
    NodesOfNone(tree.arena);
    while true
      invariant done + Pending(tree.arena, it.queue) == Leaves(tree.arena, 0)
      invariant forall k :: 0 <= k < |done| ==> done[k] < |tree.arena| && tree.arena[done[k]].data.Leaf?
      invariant nodes == NodesOf(tree.arena, done)
      decreases |Pending(tree.arena, it.queue)|
    {
      var leaf := it.Next();
      if leaf.None? {
        assert done + [] == done;
        return;
      }
      NodesOfJoin(tree.arena, done, [leaf.value]);
      NodesOfOne(tree.arena, leaf.value);
      nodes := nodes + tree.arena[leaf.value].data.nodes;
      assert done + [leaf.value] + Pending(tree.arena, it.queue) ==
               done + ([leaf.value] + Pending(tree.arena, it.queue));
      done := done + [leaf.value];
    }
  }

  lemma NodesOfNone(arena: seq<TreeNode>)
    ensures NodesOf(arena, []) == []
  {
  }

  lemma NodesOfOne(arena: seq<TreeNode>, i: nat)
    requires i < |arena| && arena[i].data.Leaf?
    ensures NodesOf(arena, [i]) == arena[i].data.nodes
  {
    assert NodesOf(arena, []) == [];
  }

  lemma RootSorted(arena: seq<TreeNode>, selfId: Id20)
    requires WF(arena, selfId) && Linked(arena)
    ensures Sorted(Contents(arena, 0))
  {
    ContentsSorted(arena, selfId, 0);
  }

  // ---------------------------------------------------------------- the table

  // Every node is what the marks since it was added made of it.
  ghost predicate Remembered(m: map<Id20, Node>, history: map<Id20, seq<Mark>>) {
    && m.Keys == history.Keys
    && forall id: Id20 :: id in m ==> m[id] == AfterMarks(FreshNode(id, m[id].addr), history[id])
  }

  ghost function HistoryInserted(history: map<Id20, seq<Mark>>, id: Id20, r: InsertResult): map<Id20, seq<Mark>> {
    match r
    case WasExisting => history
    case Ignored => history
    case Added => history[id := []]
    case ReplacedBad(bad) => (history - {bad.id})[id := []]
  }

  // What is evicted has two errors after its last response.
  lemma RememberedInsert(m: map<Id20, Node>, history: map<Id20, seq<Mark>>, n: Node, r: InsertResult)
    requires Remembered(m, history) && n == FreshNode(n.id, n.addr)
    requires r.ReplacedBad? ==> r.evicted.id in m && m[r.evicted.id] == r.evicted && r.evicted.errorsInARow >= 2
    ensures Remembered(MapInserted(m, n, r), HistoryInserted(history, n.id, r))
    ensures r.ReplacedBad? ==> TwoErrorsInARow(history[r.evicted.id])
  {
    hide TwoErrorsInARow;
    if r.ReplacedBad? {
      ErrorsInARowIs(r.evicted.id, r.evicted.addr, history[r.evicted.id]);
      TwoErrors(history[r.evicted.id]);
    }
  }

  lemma RememberedMark(m: map<Id20, Node>, history: map<Id20, seq<Mark>>, id: Id20, mark: Mark)
    requires Remembered(m, history) && id in m
    ensures Remembered(m[id := Marked(m[id], mark)], history[id := history[id] + [mark]])
  {
    hide Marked;
    assert (history[id] + [mark])[..|history[id]|] == history[id];
  }

  class Table {
    const id: Id20
    var size: nat
    const buckets: Buckets
    ghost var replaced: nat
    // What the table did to each node since it was added.
    ghost var history: map<Id20, seq<Mark>>

    // The table's own size also counts every replacement of a bad node.
    ghost predicate Valid()
      reads this, buckets
    {
      && buckets.Valid() && buckets.ownId == id
      && size == |AsMap(buckets.Nodes())| + replaced
      && Remembered(AsMap(buckets.Nodes()), history)
    }

    ghost function Map(): map<Id20, Node>
      requires Valid()
      reads this, buckets
    {
      AsMap(buckets.Nodes())
    }

    constructor (id: Id20, maxSize: Option<nat>)
      ensures Valid() && Map() == map[] && replaced == 0
      ensures buckets.maxSize == if maxSize.Some? then maxSize.value else 512
      ensures fresh(buckets)
    {
      this.id := id;
      this.buckets := new Buckets(if maxSize.Some? then maxSize.value else 512, id);
      this.size, this.replaced, this.history := 0, 0, map[];
    }

    // The id's bucket has no room and no bad node: the table is full, or that bucket is and
    // cannot be split.
    ghost predicate NoRoom(id: Id20)
      requires Valid()
      reads this, buckets
    {
      var leaf := buckets.arena[LeafFor(buckets.arena, id)];
      NoneBad(leaf) && (|Map()| == buckets.maxSize || BucketIsFull(leaf, this.id))
    }

    // `add_node` changes the map as its result says, and keeps it within the limit. Only a
    // node without room is turned away.
    method AddNode(id: Id20, addr: Addr) returns (r: InsertResult)
      requires Valid()
      modifies this, buckets
      ensures Valid() && |Map()| <= buckets.maxSize
      ensures r.Ignored? ==> NoRoom(id)
      ensures r.WasExisting? <==> id in old(Map())
      ensures Map() == MapInserted(old(Map()), FreshNode(id, addr), r)
      ensures r.ReplacedBad? ==>
                && r.evicted.id in old(Map()) && old(Map())[r.evicted.id] == r.evicted
                && r.evicted.lastRequest.Some? && r.evicted.errorsInARow >= 2
                && TwoErrorsInARow(old(history)[r.evicted.id])
                && Within(buckets.arena[LeafFor(buckets.arena, id)], r.evicted.id)
      ensures r.Added? || r.Ignored? ==> NoneBad(buckets.arena[LeafFor(buckets.arena, id)])
      ensures history == HistoryInserted(old(history), id, r)
      ensures replaced == old(replaced) + (if r.ReplacedBad? then 1 else 0)
      ensures size == old(size) + (if r.Added? || r.ReplacedBad? then 1 else 0)
    {
      hide Sorted, AsMap, WF, Linked, Contents, Inserted, MapInserted, HasId, BucketIsFull, LeafFor,
        NoneBad, Within, Remembered, HistoryInserted, TwoErrorsInARow;
      ghost var before := buckets.Nodes();
      RootSorted(buckets.arena, this.id);
      AsMapHolds(before);
      r := buckets.AddNode(this.id, id, addr);
      InsertedIsMapUpdate(before, buckets.Nodes(), FreshNode(id, addr), r);
      AsMapHolds(buckets.Nodes());
      EvictedIsBad(before, buckets.Nodes(), FreshNode(id, addr), r);
      var counted := match r {
        case WasExisting => false
        case ReplacedBad(_) => true
        case Added => true
        case Ignored => false
      };
      if counted { size := size + 1; }
      if r.ReplacedBad? { replaced := replaced + 1; }
      RememberedInsert(AsMap(before), history, FreshNode(id, addr), r);
      history := HistoryInserted(history, id, r);
    }

    // `mark_outgoing_request`, `mark_response`, `mark_error` and `mark_last_query`.
    method Mark(id: Id20, m: Mark) returns (found: bool)
      requires Valid()
      modifies buckets, `history
      ensures Valid()
      ensures found <==> id in old(Map())
      ensures history == if found then old(history)[id := old(history)[id] + [m]] else old(history)
      ensures Map() == if found then old(Map())[id := Marked(old(Map())[id], m)] else old(Map())
    {
      hide Sorted, AsMap, WF, Linked, Contents, MarkIn, HasId;
      ghost var before := buckets.Nodes();
      RootSorted(buckets.arena, this.id);
      AsMapHolds(before);
      found := buckets.Mark(id, m);
      MarkIsMapUpdate(before, id, m);
      if found {
        RememberedMark(AsMap(before), history, id, m);
        history := history[id := history[id] + [m]];
      }
    }
  }

  lemma EvictedIsBad(before: seq<Node>, after: seq<Node>, n: Node, r: InsertResult)
    requires Inserted(before, after, n, r)
    ensures r.ReplacedBad? ==> r.evicted.lastRequest.Some? && r.evicted.errorsInARow >= 2
    ensures |after| == |before| + (if r.Added? then 1 else 0)
  {
  }
}
