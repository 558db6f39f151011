// routing_table.rs: the bucket tree as a value. Its nodes lie in one growing sequence, the
// arena, and name their children by index.
module BucketTree {
  import opened Wrappers
  import opened HashId
  import opened NodeList
  import opened SocketAddrs

  datatype NodeData = Leaf(nodes: seq<Node>) | LeftRight(left: nat, right: nat)

  datatype TreeNode = TreeNode(bits: nat, start: Id20, end: Id20, data: NodeData)

  const BUCKET_SIZE: nat := 8

  predicate Within(n: TreeNode, id: Id20) { Num(n.start) <= Num(id) <= Num(n.end) }

  function ZeroId(): Id20 { seq(20, i => 0) }

  function MaxId(): Id20 { seq(20, i => 255) }

  function NewArena(): seq<TreeNode> { [TreeNode(160, ZeroId(), MaxId(), Leaf([]))] }

  // A bucket holds at most eight nodes, ascending, all of its range.
  ghost predicate BucketOk(n: TreeNode)
    requires n.data.Leaf?
  {
    && |n.data.nodes| <= BUCKET_SIZE
    && Sorted(n.data.nodes)
    && forall k :: 0 <= k < |n.data.nodes| ==> Within(n, n.data.nodes[k].id)
  }

  // The arena's exact shape: after its root come the pairs of halves that each split
  // appended; the split nodes are those that hold our own id, but for the last pair.
  ghost predicate NodeOk(arena: seq<TreeNode>, selfId: Id20, i: nat)
    requires i < |arena|
  {
    var n := arena[i];
    && n.bits == 160 - (i + 1) / 2
    && IsRange(n.start, n.end, n.bits)
    && match n.data {
      case Leaf(_) => BucketOk(n) && !(i + 2 < |arena| && Within(n, selfId))
      case LeftRight(l, r) =>
        && Within(n, selfId) && i + 2 < |arena|
        && l == 2 * ((i + 1) / 2) + 1 && r == l + 1
        && r < |arena| && arena[l].start == n.start && arena[r].end == n.end
    }
  }

  // The two halves of a pair lie side by side.
  ghost predicate PairOk(arena: seq<TreeNode>, k: nat)
    requires k + 1 < |arena|
  {
    Num(arena[k].end) + 1 == Num(arena[k + 1].start)
  }

  ghost predicate WF(arena: seq<TreeNode>, selfId: Id20) {
    && |arena| % 2 == 1 && |arena| <= 315
    && arena[0].start == ZeroId() && arena[0].end == MaxId()
    && (forall i: nat :: i < |arena| ==> NodeOk(arena, selfId, i))
    && (forall k: nat :: k + 1 < |arena| && k % 2 == 1 ==> PairOk(arena, k))
  }

  // Children come after their parents.
  ghost predicate Linked(arena: seq<TreeNode>) {
    forall i :: 0 <= i < |arena| && arena[i].data.LeftRight? ==>
      i < arena[i].data.left < |arena| && i < arena[i].data.right < |arena|
  }

  lemma IsLinked(arena: seq<TreeNode>, selfId: Id20)
    requires WF(arena, selfId)
    ensures Linked(arena)
  {
    forall i | 0 <= i < |arena| && arena[i].data.LeftRight?
      ensures i < arena[i].data.left < |arena| && i < arena[i].data.right < |arena|
    {
      assert NodeOk(arena, selfId, i);
    }
  }

  // What a split node's children are.
  lemma Children(arena: seq<TreeNode>, selfId: Id20, i: nat)
    requires WF(arena, selfId) && i < |arena| && arena[i].data.LeftRight?
    ensures var l, r := arena[i].data.left, arena[i].data.right;
            && i < l < r < |arena|
            && arena[l].start == arena[i].start && arena[r].end == arena[i].end
            && Num(arena[l].end) + 1 == Num(arena[r].start)
            && Num(arena[l].start) <= Num(arena[l].end) && Num(arena[r].start) <= Num(arena[r].end)
  {
    hide BucketOk, Num, Pow2, Within, Aligned;
    assert NodeOk(arena, selfId, i);
    var l := arena[i].data.left;
    assert NodeOk(arena, selfId, l) && NodeOk(arena, selfId, l + 1) && PairOk(arena, l);
  }

  // ---------------------------------------------------------------- contents

  // The nodes below node i, from left to right.
  ghost function Contents(arena: seq<TreeNode>, i: nat): seq<Node>
    requires Linked(arena) && i < |arena|
    decreases |arena| - i
  {
    match arena[i].data
    case Leaf(nodes) => nodes
    case LeftRight(l, r) => Contents(arena, l) + Contents(arena, r)
  }

  // The leaf that looking for an id ends in.
  ghost function Descend(arena: seq<TreeNode>, i: nat, id: Id20): (j: nat)
    requires Linked(arena) && i < |arena|
    ensures i <= j < |arena| && arena[j].data.Leaf?
    decreases |arena| - i
  {
    match arena[i].data
    case Leaf(_) => i
    case LeftRight(l, r) => if Within(arena[l], id) then Descend(arena, l, id) else Descend(arena, r, id)
  }

  // What lies left and right of that leaf.
  ghost function Before(arena: seq<TreeNode>, i: nat, id: Id20): seq<Node>
    requires Linked(arena) && i < |arena|
    decreases |arena| - i
  {
    match arena[i].data
    case Leaf(_) => []
    case LeftRight(l, r) =>
      if Within(arena[l], id) then Before(arena, l, id) else Contents(arena, l) + Before(arena, r, id)
  }

  ghost function After(arena: seq<TreeNode>, i: nat, id: Id20): seq<Node>
    requires Linked(arena) && i < |arena|
    decreases |arena| - i
  {
    match arena[i].data
    case Leaf(_) => []
    case LeftRight(l, r) =>
      if Within(arena[l], id) then After(arena, l, id) + Contents(arena, r) else After(arena, r, id)
  }

  lemma {:induction false} DescendWithin(arena: seq<TreeNode>, selfId: Id20, i: nat, id: Id20)
    requires WF(arena, selfId) && Linked(arena) && i < |arena| && Within(arena[i], id)
    ensures var j := Descend(arena, i, id);
            && Within(arena[j], id)
            && Num(arena[i].start) <= Num(arena[j].start) <= Num(arena[j].end) <= Num(arena[i].end)
    decreases |arena| - i
  {
    hide IsRange;
    hide Num;
    if arena[i].data.LeftRight? {
      Children(arena, selfId, i);
      var l, r := arena[i].data.left, arena[i].data.right;
      DescendWithin(arena, selfId, if Within(arena[l], id) then l else r, id);
    }
  }

  // In order, strictly ascending, and all in range.
  ghost predicate SortedIn(s: seq<Node>, lo: nat, hi: nat) {
    Sorted(s) && forall k :: 0 <= k < |s| ==> lo <= Key(s[k]) <= hi
  }

  lemma SortedJoin(a: seq<Node>, b: seq<Node>, lo: nat, mid: nat, hi: nat)
    requires SortedIn(a, lo, mid) && SortedIn(b, mid + 1, hi) && lo <= mid < hi
    ensures SortedIn(a + b, lo, hi)
  {
  }

  lemma {:induction false} ContentsSorted(arena: seq<TreeNode>, selfId: Id20, i: nat)
    requires WF(arena, selfId) && Linked(arena) && i < |arena|
    ensures SortedIn(Contents(arena, i), Num(arena[i].start), Num(arena[i].end))
    decreases |arena| - i
  {
    hide IsRange;
    hide Num;
    assert NodeOk(arena, selfId, i);
    match arena[i].data
    case Leaf(nodes) =>
    case LeftRight(l, r) =>
      Children(arena, selfId, i);
      ContentsSorted(arena, selfId, l);
      ContentsSorted(arena, selfId, r);
      SortedJoin(Contents(arena, l), Contents(arena, r), Num(arena[l].start), Num(arena[l].end), Num(arena[r].end));
  }

  ghost predicate AllBelow(s: seq<Node>, bound: nat) { forall k :: 0 <= k < |s| ==> Key(s[k]) < bound }

  ghost predicate AllAbove(s: seq<Node>, bound: nat) { forall k :: 0 <= k < |s| ==> bound < Key(s[k]) }

  lemma {:induction false} BeforeIsBelow(arena: seq<TreeNode>, selfId: Id20, i: nat, id: Id20)
    requires WF(arena, selfId) && Linked(arena) && i < |arena| && Within(arena[i], id)
    ensures AllBelow(Before(arena, i, id), Num(arena[Descend(arena, i, id)].start))
    ensures AllAbove(After(arena, i, id), Num(arena[Descend(arena, i, id)].end))
    decreases |arena| - i
  {
    hide IsRange;
    hide Num;
    if arena[i].data.LeftRight? {
      var l, r := arena[i].data.left, arena[i].data.right;
      Children(arena, selfId, i);
      if Within(arena[l], id) {
        BeforeIsBelow(arena, selfId, l, id);
        DescendWithin(arena, selfId, l, id);
        ContentsSorted(arena, selfId, r);
      } else {
        BeforeIsBelow(arena, selfId, r, id);
        DescendWithin(arena, selfId, r, id);
        ContentsSorted(arena, selfId, l);
      }
    }
  }

  // ---------------------------------------------------------------- changing one leaf

  // The second arena keeps every node of the first but leaf j, whose range it keeps.
  ghost predicate SameBut(arena: seq<TreeNode>, arena': seq<TreeNode>, j: nat) {
    && j < |arena| <= |arena'|
    && (forall k :: 0 <= k < |arena| && k != j ==> arena'[k] == arena[k])
    && arena'[j].start == arena[j].start && arena'[j].end == arena[j].end
  }

  ghost predicate Apart(a: TreeNode, b: TreeNode) {
    Num(a.end) < Num(b.start) || Num(b.end) < Num(a.start)
  }

  // Subtrees of other ranges do not notice.
  lemma {:induction false} ContentsFrame(arena: seq<TreeNode>, arena': seq<TreeNode>, selfId: Id20, i: nat, j: nat)
    requires WF(arena, selfId) && Linked(arena) && Linked(arena') && i < |arena|
    requires SameBut(arena, arena', j) && Apart(arena[i], arena[j]) && Num(arena[j].start) <= Num(arena[j].end)
    ensures Contents(arena', i) == Contents(arena, i)
    decreases |arena| - i
  {
    hide IsRange;
    hide Num;
    assert i != j by { assert NodeOk(arena, selfId, i); }
    if arena[i].data.LeftRight? {
      Children(arena, selfId, i);
      ContentsFrame(arena, arena', selfId, arena[i].data.left, j);
      ContentsFrame(arena, arena', selfId, arena[i].data.right, j);
    }
  }

  // Everything outside the leaf that an id belongs to stays where it is.
  lemma {:induction false} ContentsThrough(arena: seq<TreeNode>, arena': seq<TreeNode>, selfId: Id20, i: nat, id: Id20)
    requires WF(arena, selfId) && Linked(arena) && Linked(arena') && i < |arena| && Within(arena[i], id)
    requires SameBut(arena, arena', Descend(arena, i, id))
    ensures Contents(arena', i) ==
            Before(arena, i, id) + Contents(arena', Descend(arena, i, id)) + After(arena, i, id)
    ensures Descend(arena', i, id) == Descend(arena', Descend(arena, i, id), id)
    decreases |arena| - i
  {
    hide IsRange, Num, WF, Within;
    if arena[i].data.LeftRight? {
      var l, r := arena[i].data.left, arena[i].data.right;
      OtherHalfStays(arena, arena', selfId, i, id);
      var j := Descend(arena, i, id);
      if Within(arena[l], id) {
        ContentsThrough(arena, arena', selfId, l, id);
        Regroup(Before(arena, l, id), Contents(arena', j), After(arena, l, id), Contents(arena, r));
      } else {
        ContentsThrough(arena, arena', selfId, r, id);
        Regroup(Contents(arena, l), Before(arena, r, id), Contents(arena', j), After(arena, r, id));
      }
    } else {
      assert [] + Contents(arena', i) + [] == Contents(arena', i);
    }
  }

  lemma Regroup(a: seq<Node>, b: seq<Node>, c: seq<Node>, d: seq<Node>)
    ensures (a + b + c) + d == a + b + (c + d)
    ensures a + (b + c + d) == (a + b) + c + d
  {
  }

  // The half that the id does not belong to stays as it is.
  lemma OtherHalfStays(arena: seq<TreeNode>, arena': seq<TreeNode>, selfId: Id20, i: nat, id: Id20)
    requires WF(arena, selfId) && Linked(arena) && Linked(arena') && i < |arena| && Within(arena[i], id)
    requires arena[i].data.LeftRight? && SameBut(arena, arena', Descend(arena, i, id))
    ensures arena'[i] == arena[i]
    ensures Within(arena'[arena[i].data.left], id) == Within(arena[arena[i].data.left], id)
    ensures var l, r := arena[i].data.left, arena[i].data.right;
            if Within(arena[l], id) then Contents(arena', r) == Contents(arena, r)
            else Within(arena[r], id) && Contents(arena', l) == Contents(arena, l)
  {
    hide IsRange, Num, WF, Contents;
    var l, r := arena[i].data.left, arena[i].data.right;
    Children(arena, selfId, i);
    var j := Descend(arena, i, id);
    if Within(arena[l], id) {
      DescendWithin(arena, selfId, l, id);
      ContentsFrame(arena, arena', selfId, r, j);
    } else {
      DescendWithin(arena, selfId, r, id);
      ContentsFrame(arena, arena', selfId, l, j);
    }
  }

  // The leaf for an id in the whole arena.
  ghost function LeafFor(arena: seq<TreeNode>, id: Id20): (j: nat)
    requires Linked(arena) && |arena| > 0
    ensures j < |arena| && arena[j].data.Leaf?
  {
    Descend(arena, 0, id)
  }

  lemma EverythingWithinRoot(arena: seq<TreeNode>, selfId: Id20, id: Id20)
    requires WF(arena, selfId)
    ensures Within(arena[0], id)
  {
    assert NodeOk(arena, selfId, 0);
    NumFits(id);
    NumZero(20);
  }

  lemma {:induction false} NumZero(n: nat)
    ensures Num(seq(n, i => 0)) == 0
  {
    if n > 0 {
      assert seq(n, i => 0)[..n - 1] == seq(n - 1, i => 0);
      NumZero(n - 1);
    }
  }

  // The whole contents, around the leaf for an id.
  lemma AroundLeaf(arena: seq<TreeNode>, selfId: Id20, id: Id20) returns (before: seq<Node>, after: seq<Node>)
    requires WF(arena, selfId) && Linked(arena)
    ensures var j := LeafFor(arena, id);
            && Within(arena[j], id) && BucketOk(arena[j])
            && Contents(arena, 0) == before + arena[j].data.nodes + after
            && AllBelow(before, Num(arena[j].start)) && AllAbove(after, Num(arena[j].end))
            && (forall arena' :: Linked(arena') && SameBut(arena, arena', j) ==>
                  Contents(arena', 0) == before + Contents(arena', j) + after
                  && LeafFor(arena', id) == Descend(arena', j, id))
  {
    hide IsRange;
    hide Num;
    EverythingWithinRoot(arena, selfId, id);
    var j := Descend(arena, 0, id);
    assert NodeOk(arena, selfId, j);
    DescendWithin(arena, selfId, 0, id);
    BeforeIsBelow(arena, selfId, 0, id);
    ContentsThrough(arena, arena, selfId, 0, id);
    before, after := Before(arena, 0, id), After(arena, 0, id);
    forall arena' | Linked(arena') && SameBut(arena, arena', j)
      ensures Contents(arena', 0) == before + Contents(arena', j) + after
      ensures LeafFor(arena', id) == Descend(arena', j, id)
    {
      ContentsThrough(arena, arena', selfId, 0, id);
    }
  }

  // `get_leaf` finds the only leaf an id can be in.
  lemma FoundInLeafIff(arena: seq<TreeNode>, selfId: Id20, id: Id20)
    requires WF(arena, selfId) && Linked(arena)
    ensures HasId(Contents(arena, 0), id) <==> HasId(arena[LeafFor(arena, id)].data.nodes, id)
  {
    hide IsRange, Num, HasId, WF, Contents, BucketOk, AllBelow, AllAbove;
    var before, after := AroundLeaf(arena, selfId, id);
    var leaf := arena[LeafFor(arena, id)];
    FoundInMiddle(before, leaf.data.nodes, after, Num(leaf.start), Num(leaf.end), id);
  }

  lemma FoundInMiddle(before: seq<Node>, nodes: seq<Node>, after: seq<Node>, lo: nat, hi: nat, id: Id20)
    requires AllBelow(before, lo) && AllAbove(after, hi) && lo <= Num(id) <= hi
    ensures HasId(before + nodes + after, id) <==> HasId(nodes, id)
  {
    hide Num;
    if n :| n in before + nodes + after && n.id == id {
      assert n !in before && n !in after;
    }
  }

  // The arena with other nodes in leaf j.
  function WithNodes(arena: seq<TreeNode>, j: nat, nodes: seq<Node>): (r: seq<TreeNode>)
    requires j < |arena|
    ensures |r| == |arena|
  {
    arena[j := arena[j].(data := Leaf(nodes))]
  }

  lemma WithNodesKeepsWF(arena: seq<TreeNode>, selfId: Id20, j: nat, nodes: seq<Node>)
    requires WF(arena, selfId) && j < |arena| && arena[j].data.Leaf?
    requires BucketOk(arena[j].(data := Leaf(nodes)))
    ensures WF(WithNodes(arena, j, nodes), selfId)
    ensures Linked(WithNodes(arena, j, nodes)) && SameBut(arena, WithNodes(arena, j, nodes), j)
  {
    hide IsRange;
    hide Num;
    hide Sorted;
    var r := WithNodes(arena, j, nodes);
    forall i: nat | i < |r| ensures NodeOk(r, selfId, i) {
      assert NodeOk(arena, selfId, i) && NodeOk(arena, selfId, j);
    }
    forall k: nat | k + 1 < |r| && k % 2 == 1 ensures PairOk(r, k) { assert PairOk(arena, k); }
    IsLinked(r, selfId);
  }

  // Whatever the leaf of an id holds, the id belongs to that leaf.
  lemma LeafStays(arena: seq<TreeNode>, selfId: Id20, id: Id20, nodes: seq<Node>)
    requires WF(arena, selfId) && Linked(arena)
    requires Linked(WithNodes(arena, LeafFor(arena, id), nodes))
    ensures LeafFor(WithNodes(arena, LeafFor(arena, id), nodes), id) == LeafFor(arena, id)
  {
    hide IsRange;
    hide Num;
    var before, after := AroundLeaf(arena, selfId, id);
    assert SameBut(arena, WithNodes(arena, LeafFor(arena, id), nodes), LeafFor(arena, id));
  }

  // A node inserted into its leaf is inserted into the whole contents.
  lemma InsertIntoLeaf(arena: seq<TreeNode>, selfId: Id20, n: Node)
    requires WF(arena, selfId) && Linked(arena)
    requires var nodes := arena[LeafFor(arena, n.id)].data.nodes; |nodes| < BUCKET_SIZE && !HasId(nodes, n.id)
    ensures var j := LeafFor(arena, n.id);
            var arena' := WithNodes(arena, j, InsertSorted(arena[j].data.nodes, n));
            && WF(arena', selfId) && Linked(arena')
            && Contents(arena', 0) == InsertSorted(Contents(arena, 0), n)
  {
    hide IsRange;
    hide Num;
    var j := LeafFor(arena, n.id);
    var before, after := AroundLeaf(arena, selfId, n.id);
    InsertIsOk(arena[j], arena[j].data.nodes, n);
    WithNodesKeepsWF(arena, selfId, j, InsertSorted(arena[j].data.nodes, n));
    InsertBetween(before, arena[j].data.nodes, after, n);
  }

  lemma InsertIsOk(leaf: TreeNode, nodes: seq<Node>, n: Node)
    requires leaf.data.Leaf? && Within(leaf, n.id) && !HasId(nodes, n.id) && |nodes| < BUCKET_SIZE
    requires BucketOk(leaf.(data := Leaf(nodes)))
    ensures BucketOk(leaf.(data := Leaf(InsertSorted(nodes, n))))
  {
    hide Num;
    var r := InsertSorted(nodes, n);
    InsertSortedKeepsSorted(nodes, n);
    forall k | 0 <= k < |r| ensures Within(leaf, r[k].id) { InsertSortedMembers(nodes, n, r[k]); }
  }

  lemma LeafBounds(leaf: TreeNode, before: seq<Node>, after: seq<Node>, n: Node)
    requires Within(leaf, n.id) && AllBelow(before, Num(leaf.start)) && AllAbove(after, Num(leaf.end))
    ensures forall i :: 0 <= i < |before| ==> Key(before[i]) < Key(n)
    ensures forall i :: 0 <= i < |after| ==> Key(n) < Key(after[i])
  {
    hide Num;
  }

  lemma RemoveMiddle(before: seq<Node>, s: seq<Node>, after: seq<Node>, k: nat)
    requires k < |s|
    ensures WithoutIndex(before + s + after, |before| + k) == before + WithoutIndex(s, k) + after
  {
  }

  lemma WithoutIsOk(leaf: TreeNode, nodes: seq<Node>, k: nat, id: Id20)
    requires leaf.data.Leaf? && !HasId(nodes, id) && k < |nodes|
    requires BucketOk(leaf.(data := Leaf(nodes)))
    ensures !HasId(WithoutIndex(nodes, k), id)
    ensures BucketOk(leaf.(data := Leaf(WithoutIndex(nodes, k))))
  {
    hide Num;
    var rest := WithoutIndex(nodes, k);
    forall i | 0 <= i < |rest| ensures rest[i] == nodes[if i < k then i else i + 1] && rest[i] in nodes {}
  }

  lemma ReplaceIsOk(leaf: TreeNode, nodes: seq<Node>, k: nat, n: Node)
    requires leaf.data.Leaf? && Within(leaf, n.id) && !HasId(nodes, n.id) && k < |nodes|
    requires BucketOk(leaf.(data := Leaf(nodes)))
    ensures SortById(nodes[k := n]) == InsertSorted(WithoutIndex(nodes, k), n)
    ensures BucketOk(leaf.(data := Leaf(SortById(nodes[k := n]))))
  {
    hide Num;
    hide InsertSorted;
    hide SortById;
    var rest := WithoutIndex(nodes, k);
    HasKey(nodes, n.id);
    SortAfterReplace(nodes, k, n);
    WithoutIsOk(leaf, nodes, k, n.id);
    InsertIsOk(leaf, rest, n);
  }

  // A node replaced in its leaf leaves the whole contents, and the new one enters it.
  lemma ReplaceInLeaf(arena: seq<TreeNode>, selfId: Id20, k: nat, n: Node) returns (at: nat)
    requires WF(arena, selfId) && Linked(arena)
    requires var nodes := arena[LeafFor(arena, n.id)].data.nodes; k < |nodes| && !HasId(nodes, n.id)
    ensures var j := LeafFor(arena, n.id);
            var arena' := WithNodes(arena, j, SortById(arena[j].data.nodes[k := n]));
            && at < |Contents(arena, 0)| && Contents(arena, 0)[at] == arena[j].data.nodes[k]
            && WF(arena', selfId) && Linked(arena')
            && Contents(arena', 0) == InsertSorted(WithoutIndex(Contents(arena, 0), at), n)
  {
    hide Num, Key, InsertSorted, SortById, HasId, Sorted, BucketOk, WF, IsRange, AllBelow, AllAbove, Within,
         WithoutIndex, Linked;
    var j := LeafFor(arena, n.id);
    var nodes := arena[j].data.nodes;
    var before, after := AroundLeaf(arena, selfId, n.id);
    ReplaceIsOk(arena[j], nodes, k, n);
    WithNodesKeepsWF(arena, selfId, j, SortById(nodes[k := n]));
    LeafBounds(arena[j], before, after, n);
    InsertBetween(before, WithoutIndex(nodes, k), after, n);
    at := |before| + k;
    RemoveMiddle(before, nodes, after, k);
  }

  // Marking the node of an id in its leaf marks it in the whole contents.
  lemma MarkInLeaf(arena: seq<TreeNode>, selfId: Id20, id: Id20, m: Mark)
    requires WF(arena, selfId) && Linked(arena)
    ensures var j := LeafFor(arena, id);
            var arena' := WithNodes(arena, j, MarkIn(arena[j].data.nodes, id, m));
            && WF(arena', selfId) && Linked(arena')
            && Contents(arena', 0) == MarkIn(Contents(arena, 0), id, m)
  {
    hide IsRange;
    hide Num;
    var j := LeafFor(arena, id);
    var nodes := arena[j].data.nodes;
    var before, after := AroundLeaf(arena, selfId, id);
    MarkIsOk(arena[j], nodes, id, m);
    WithNodesKeepsWF(arena, selfId, j, MarkIn(nodes, id, m));
    MarkMisses(before, id, m);
    MarkMisses(after, id, m);
    MarkJoin(before, nodes, after, id, m);
  }

  lemma MarkIsOk(leaf: TreeNode, nodes: seq<Node>, id: Id20, m: Mark)
    requires leaf.data.Leaf? && BucketOk(leaf.(data := Leaf(nodes)))
    ensures BucketOk(leaf.(data := Leaf(MarkIn(nodes, id, m))))
  {
    hide Num;
    var r := MarkIn(nodes, id, m);
    assert forall k :: 0 <= k < |nodes| ==> r[k].id == nodes[k].id && Key(r[k]) == Key(nodes[k]);
  }

  lemma MarkJoin(a: seq<Node>, b: seq<Node>, c: seq<Node>, id: Id20, m: Mark)
    ensures MarkIn(a + b + c, id, m) == MarkIn(a, id, m) + MarkIn(b, id, m) + MarkIn(c, id, m)
  {
    hide Marked;
  }

  lemma MarkMisses(s: seq<Node>, id: Id20, m: Mark)
    requires forall k :: 0 <= k < |s| ==> Key(s[k]) != Num(id)
    ensures MarkIn(s, id, m) == s
  {
    hide Num;
    forall k | 0 <= k < |s| ensures s[k].id != id {}
  }

  // ---------------------------------------------------------------- splitting

  function Lower(s: seq<Node>, bound: nat): seq<Node> {
    if s == [] then []
    else if Key(s[|s| - 1]) < bound then Lower(s[..|s| - 1], bound) + [s[|s| - 1]]
    else Lower(s[..|s| - 1], bound)
  }

  function Upper(s: seq<Node>, bound: nat): seq<Node> {
    if s == [] then []
    else if Key(s[|s| - 1]) < bound then Upper(s[..|s| - 1], bound)
    else Upper(s[..|s| - 1], bound) + [s[|s| - 1]]
  }

  lemma LastIsLargest(s: seq<Node>, i: nat)
    requires Sorted(s) && i < |s| - 1
    ensures Key(s[i]) < Key(s[|s| - 1])
  {
  }

  // Draining an ascending bucket into two cuts it in two.
  lemma {:induction false} DrainCuts(s: seq<Node>, bound: nat) returns (cut: nat)
    requires Sorted(s)
    ensures cut <= |s| && Lower(s, bound) == s[..cut] && Upper(s, bound) == s[cut..]
    ensures forall k :: 0 <= k < |s| ==> (k < cut <==> Key(s[k]) < bound)
  {
    hide Key, Lower, Upper, Sorted;
    DrainStep(s, bound);
    if s == [] { return 0; }
    var front, last := s[..|s| - 1], s[|s| - 1];
    assert Sorted(front) by { SortedFront(s); }
    cut := DrainCuts(front, bound);
    if Key(last) < bound {
      if cut < |front| { LastIsLargest(s, cut); }
      cut := |s|;
    }
  }

  lemma SortedFront(s: seq<Node>)
    requires Sorted(s) && s != []
    ensures Sorted(s[..|s| - 1])
  {
    hide Num;
  }

  lemma DrainStep(s: seq<Node>, bound: nat)
    ensures s == [] ==> Lower(s, bound) == [] && Upper(s, bound) == []
    ensures s != [] ==>
              var front, last := s[..|s| - 1], s[|s| - 1];
              && s == front + [last]
              && Lower(s, bound) == Lower(front, bound) + (if Key(last) < bound then [last] else [])
              && Upper(s, bound) == Upper(front, bound) + (if Key(last) < bound then [] else [last])
  {
    hide Key;
  }

  function Half(arena: seq<TreeNode>, j: nat, start: Id20, end: Id20, nodes: seq<Node>): TreeNode
    requires j < |arena| && arena[j].bits > 0
  {
    TreeNode(arena[j].bits - 1, start, end, Leaf(nodes))
  }

  // The arena after leaf j was split.
  function Split(arena: seq<TreeNode>, j: nat): (r: seq<TreeNode>)
    requires j < |arena| && arena[j].data.Leaf? && 0 < arena[j].bits <= 160
    ensures |r| == |arena| + 2
  {
    var n := arena[j];
    var (leftEnd, rightStart) := ComputeSplitStartEnd(n.start, n.end, n.bits);
    arena[j := n.(data := LeftRight(|arena|, |arena| + 1))]
    + [Half(arena, j, n.start, leftEnd, Lower(n.data.nodes, Num(rightStart))),
       Half(arena, j, rightStart, n.end, Upper(n.data.nodes, Num(rightStart)))]
  }

  // A full bucket and one more id of its range are nine different ids, so the range has
  // four bits at least.
  lemma FullBucketHasFourBits(leaf: TreeNode, id: Id20)
    requires leaf.data.Leaf? && BucketOk(leaf) && |leaf.data.nodes| == BUCKET_SIZE
    requires IsRange(leaf.start, leaf.end, leaf.bits) && Within(leaf, id) && !HasId(leaf.data.nodes, id)
    ensures leaf.bits >= 4
  {
    hide Num;
    var n := FreshNode(id, V4(0, 0));
    var nine := InsertSorted(leaf.data.nodes, n);
    InsertSortedKeepsSorted(leaf.data.nodes, n);
    SortedSpread(nine);
    InsertSortedMembers(leaf.data.nodes, n, nine[0]);
    InsertSortedMembers(leaf.data.nodes, n, nine[8]);
    assert Pow2(leaf.bits) >= 9;
    assert Pow2(0) == 1 && Pow2(1) == 2 && Pow2(2) == 4 && Pow2(3) == 8;
  }

  // Only the last pair's half (or the lone root) can hold our own id and still be a leaf.
  lemma SplitLeafIsLast(arena: seq<TreeNode>, selfId: Id20, j: nat)
    requires WF(arena, selfId) && j < |arena| && arena[j].data.Leaf? && Within(arena[j], selfId)
    ensures j + 2 >= |arena|
    ensures 2 * ((j + 1) / 2) + 1 == |arena|
  {
    assert NodeOk(arena, selfId, j);
  }

  lemma SliceOk(leaf: TreeNode, part: TreeNode, a: nat, b: nat)
    requires leaf.data.Leaf? && BucketOk(leaf) && a <= b <= |leaf.data.nodes|
    requires part.data == Leaf(leaf.data.nodes[a..b])
    requires forall k :: a <= k < b ==> Within(part, leaf.data.nodes[k].id)
    ensures BucketOk(part)
  {
    hide Key;
    hide Within;
    assert forall k :: 0 <= k < b - a ==> part.data.nodes[k] == leaf.data.nodes[a + k];
  }

  // The halves hold the bucket's nodes between them.
  lemma HalvesOk(leaf: TreeNode, left: TreeNode, right: TreeNode)
    requires leaf.data.Leaf? && BucketOk(leaf) && 2 <= leaf.bits <= 160 && IsRange(leaf.start, leaf.end, leaf.bits)
    requires var (leftEnd, rightStart) := ComputeSplitStartEnd(leaf.start, leaf.end, leaf.bits);
             && left == TreeNode(leaf.bits - 1, leaf.start, leftEnd, Leaf(Lower(leaf.data.nodes, Num(rightStart))))
             && right == TreeNode(leaf.bits - 1, rightStart, leaf.end, Leaf(Upper(leaf.data.nodes, Num(rightStart))))
    ensures IsRange(left.start, left.end, left.bits) && IsRange(right.start, right.end, right.bits)
    ensures Num(left.end) + 1 == Num(right.start)
    ensures BucketOk(left) && BucketOk(right)
    ensures left.data.nodes + right.data.nodes == leaf.data.nodes
  {
    hide IsRange;
    hide Num;
    hide ComputeSplitStartEnd;
    hide Lower;
    hide Upper;
    var nodes := leaf.data.nodes;
    SplitIsHalves(leaf.start, leaf.end, leaf.bits);
    var cut := DrainCuts(nodes, Num(right.start));
    SliceOk(leaf, left, 0, cut);
    SliceOk(leaf, right, cut, |nodes|);
    assert nodes[..cut] + nodes[cut..] == nodes;
  }

  lemma SplitKeepsWF(arena: seq<TreeNode>, selfId: Id20, j: nat)
    requires WF(arena, selfId) && j < |arena| && arena[j].data.Leaf? && arena[j].bits >= 4
    requires Within(arena[j], selfId)
    ensures arena[j].bits <= 160
    ensures WF(Split(arena, j), selfId) && Linked(Split(arena, j)) && SameBut(arena, Split(arena, j), j)
    ensures Contents(Split(arena, j), j) == arena[j].data.nodes
  {
    hide IsRange;
    hide Num;
    hide Sorted;
    assert NodeOk(arena, selfId, j);
    SplitLeafIsLast(arena, selfId, j);
    var r := Split(arena, j);
    var n := |arena|;
    HalvesOk(arena[j], r[n], r[n + 1]);
    forall i: nat | i < |r| ensures NodeOk(r, selfId, i) { SplitNodeOk(arena, selfId, j, i); }
    forall k: nat | k + 1 < |r| && k % 2 == 1 ensures PairOk(r, k) { if k < n { assert PairOk(arena, k); } }
    IsLinked(r, selfId);
    assert Contents(r, n) == r[n].data.nodes && Contents(r, n + 1) == r[n + 1].data.nodes;
  }

  lemma SplitNodeOk(arena: seq<TreeNode>, selfId: Id20, j: nat, i: nat)
    requires WF(arena, selfId) && j < |arena| && arena[j].data.Leaf? && 4 <= arena[j].bits <= 160
    requires Within(arena[j], selfId) && i < |arena| + 2
    ensures NodeOk(Split(arena, j), selfId, i)
  {
    hide IsRange;
    hide Num;
    hide Sorted;
    var r := Split(arena, j);
    var n := |arena|;
    assert NodeOk(arena, selfId, j);
    SplitLeafIsLast(arena, selfId, j);
    HalvesOk(arena[j], r[n], r[n + 1]);
    if i < n && i != j {
      assert NodeOk(arena, selfId, i);
      if i + 2 >= n && n > 1 {
        assert PairOk(arena, n - 2) && NodeOk(arena, selfId, n - 2) && NodeOk(arena, selfId, n - 1);
      }
    }
  }
}
