// chunk_tracker.rs: which pieces are needed, which chunks arrived, which pieces we have.
//
// A `Tracker` value keeps the chunk bits piece by piece. The class keeps the
// source's flat bitfield, of which every piece owns one range, and each of its
// methods is proved to change the flat bits exactly as the function on the value.
module ChunkTracker {
  import opened Wrappers
  import opened Lengths

  datatype Tracker = Tracker(needed: seq<bool>, chunks: seq<seq<bool>>, have: seq<bool>)

  datatype ChunkMarkingResult = PreviouslyCompleted | NotCompleted | Completed

  // The data is no chunk of any piece; the bitfield lacks the piece's range; or a result.
  datatype MarkOutcome = NoChunk | RangeMissing | Marked(result: ChunkMarkingResult)

  predicate All(bits: seq<bool>) { forall i :: 0 <= i < |bits| ==> bits[i] }

  function NoneSet(n: nat): (bits: seq<bool>)
    ensures |bits| == n && forall i :: 0 <= i < n ==> !bits[i]
  {
    seq(n, i => false)
  }

  // A tracker for n pieces, each of at least one chunk.
  ghost predicate Shaped(t: Tracker, n: nat) {
    && |t.needed| == |t.chunks| == |t.have| == n
    && forall p :: 0 <= p < n ==> |t.chunks[p]| > 0
  }

  function ReserveNeeded(t: Tracker, p: nat): Tracker
    requires p < |t.needed|
  {
    t.(needed := t.needed[p := false])
  }

  function CancelRequest(t: Tracker, p: nat): Tracker
    requires p < |t.needed| == |t.chunks| == |t.have|
  {
    if t.have[p] || All(t.chunks[p]) then t else t.(needed := t.needed[p := true])
  }

  function MarkBroken(t: Tracker, p: nat): Tracker
    requires p < |t.needed| == |t.chunks| == |t.have|
  {
    if t.have[p] then t
    else t.(needed := t.needed[p := true], chunks := t.chunks[p := NoneSet(|t.chunks[p]|)])
  }

  function MarkDownloaded(t: Tracker, p: nat): Tracker
    requires p < |t.have|
  {
    t.(have := t.have[p := true])
  }

  function MarkChunk(t: Tracker, p: nat, c: nat): (Tracker, ChunkMarkingResult)
    requires p < |t.chunks| && c < |t.chunks[p]|
  {
    if All(t.chunks[p]) then (t, PreviouslyCompleted)
    else
      var bits := t.chunks[p][c := true];
      (t.(chunks := t.chunks[p := bits]), if All(bits) then Completed else NotCompleted)
  }

  // What marking a chunk means: its bit is set and no other changes; it completes the piece
  // when all bits are set now and one was missing before.
  ghost predicate ChunkMarked(was: seq<seq<bool>>, now: seq<seq<bool>>, p: nat, c: nat, r: ChunkMarkingResult) {
    && BitSet(was, now, p, c)
    && (r == PreviouslyCompleted <==> forall k :: 0 <= k < |was[p]| ==> was[p][k])
    && (r == Completed <==>
        && (forall k :: 0 <= k < |now[p]| ==> now[p][k])
        && exists k :: 0 <= k < |was[p]| && !was[p][k])
  }

  // One chunk bit is set afterwards, and every other is what it was.
  ghost predicate BitSet(was: seq<seq<bool>>, now: seq<seq<bool>>, p: nat, c: nat) {
    && p < |now| == |was| && c < |now[p]| && now[p][c]
    && forall q, k :: 0 <= q < |now| && 0 <= k < |now[q]| && !(q == p && k == c) ==>
        |now[q]| == |was[q]| && now[q][k] == was[q][k]
  }

  // ---- byte totals --------------------------------------------------------------------

  // Summed length of the pieces whose bit is set.
  ghost function BytesOf(l: Lengths, bits: seq<bool>): nat
    requires |bits| <= l.lastPieceId + 1
  {
    if bits == [] then 0
    else
      var k := |bits| - 1;
      BytesOf(l, bits[..k]) + if bits[k] then PieceLength(l, k) else 0
  }

  lemma {:induction false} SetBitAddsPiece(l: Lengths, bits: seq<bool>, p: nat)
    requires |bits| <= l.lastPieceId + 1 && p < |bits| && !bits[p]
    ensures BytesOf(l, bits[p := true]) == BytesOf(l, bits) + PieceLength(l, p)
  {
    var k := |bits| - 1;
    var set' := bits[p := true];
    if p < k {
      SetBitAddsPiece(l, bits[..k], p);
      assert set'[..k] == bits[..k][p := true];
    } else {
      assert set'[..k] == bits[..k];
    }
  }

  // More bits never weigh less, and weigh the same only when they are the same bits.
  lemma {:induction false} BytesMonotone(l: Lengths, a: seq<bool>, b: seq<bool>)
    requires Valid(l) && |a| == |b| <= l.lastPieceId + 1
    requires forall i :: 0 <= i < |a| && a[i] ==> b[i]
    ensures BytesOf(l, a) <= BytesOf(l, b)
    ensures BytesOf(l, a) == BytesOf(l, b) <==> a == b
  {
    if a != [] {
      var k := |a| - 1;
      BytesMonotone(l, a[..k], b[..k]);
      assert a == a[..k] + [a[k]] && b == b[..k] + [b[k]];
    }
  }

  lemma {:induction false} BytesOfNone(l: Lengths, bits: seq<bool>)
    requires |bits| <= l.lastPieceId + 1
    requires forall i :: 0 <= i < |bits| ==> !bits[i]
    ensures BytesOf(l, bits) == 0
  {
    if bits != [] { BytesOfNone(l, bits[..|bits| - 1]); }
  }

  lemma {:induction false} BytesOfDisjoint(l: Lengths, a: seq<bool>, b: seq<bool>, c: seq<bool>)
    requires |a| == |b| == |c| <= l.lastPieceId + 1
    requires forall i :: 0 <= i < |a| ==> !(a[i] && b[i]) && c[i] == (a[i] || b[i])
    ensures BytesOf(l, c) == BytesOf(l, a) + BytesOf(l, b)
  {
    if a != [] {
      var k := |a| - 1;
      BytesOfDisjoint(l, a[..k], b[..k], c[..k]);
    }
  }

  lemma {:induction false} BytesOfAll(l: Lengths, bits: seq<bool>)
    requires |bits| <= l.lastPieceId + 1
    requires All(bits)
    ensures BytesOf(l, bits) == SumPieceLengths(l, |bits|)
  {
    if bits != [] { BytesOfAll(l, bits[..|bits| - 1]); }
  }

  // ---- in place -----------------------------------------------------------------------

  ghost predicate InRange(l: Lengths, q: nat, i: int)
    requires Sane(l) && q <= l.lastPieceId
  {
    ChunkRangeStart(l, q) <= i < ChunkRangeEnd(l, q)
  }

  // The bits of one piece. A piece whose range reaches past the bitfield has none of its
  // chunk bits set, and none can be.
  ghost function PieceBits(l: Lengths, flat: seq<bool>, p: nat): (r: seq<bool>)
    requires Sane(l) && p <= l.lastPieceId
    ensures |r| == ChunkRangeEnd(l, p) - ChunkRangeStart(l, p) > 0
  {
    RangeNotEmpty(l, p);
    if RangeFits(l, p, |flat|) then flat[ChunkRangeStart(l, p)..ChunkRangeEnd(l, p)]
    else NoneSet(ChunkRangeEnd(l, p) - ChunkRangeStart(l, p))
  }

  // The flat bits cut into the pieces' ranges.
  ghost function Cut(l: Lengths, flat: seq<bool>): (r: seq<seq<bool>>)
    requires Sane(l)
    ensures |r| == l.lastPieceId + 1
    ensures forall p: nat :: p < |r| ==> r[p] == PieceBits(l, flat, p)
  {
    seq(l.lastPieceId + 1, p requires 0 <= p <= l.lastPieceId => PieceBits(l, flat, p))
  }

  ghost predicate RangeFits(l: Lengths, p: nat, size: nat)
    requires Sane(l) && p <= l.lastPieceId
  {
    ChunkRangeEnd(l, p) <= size
  }

  lemma RangeNotEmpty(l: Lengths, p: nat)
    requires Sane(l) && p <= l.lastPieceId
    ensures ChunkRangeStart(l, p) < ChunkRangeEnd(l, p)
    ensures ChunkRangeEnd(l, p) == ChunkRangeStart(l, p) + ChunksPerPiece(l, p)
  {
    ChunkRange(l, p);
    ChunkCount(l, p);
  }

  // Changing bits inside one piece's range changes that piece's cut and no other.
  lemma CutAfterRangeWrite(l: Lengths, before: seq<bool>, after: seq<bool>, p: nat)
    requires Sane(l) && p <= l.lastPieceId && |before| == |after|
    requires forall i :: 0 <= i < |before| && !InRange(l, p, i) ==> after[i] == before[i]
    ensures Cut(l, after) == Cut(l, before)[p := PieceBits(l, after, p)]
  {
    var a, b := Cut(l, after), Cut(l, before);
    forall q: nat | q < |a| && q != p ensures a[q] == b[q] {
      OtherRangeKept(l, before, after, p, q);
    }
  }

  lemma OtherRangeKept(l: Lengths, before: seq<bool>, after: seq<bool>, p: nat, q: nat)
    requires Sane(l) && p <= l.lastPieceId && q <= l.lastPieceId && p != q && |before| == |after|
    requires forall i :: 0 <= i < |before| && !InRange(l, p, i) ==> after[i] == before[i]
    ensures PieceBits(l, after, q) == PieceBits(l, before, q)
  {
    hide ChunkRangeStart, ChunkRangeEnd;
    if p < q { ChunkRangesDisjoint(l, p, q); } else { ChunkRangesDisjoint(l, q, p); }
  }

  // The source unwraps the range of every piece that is not needed.
  ghost predicate StatusComputable(l: Lengths, needed: seq<bool>)
    requires l.chunkLength > 0
  {
    forall p: u32 :: p <= l.lastPieceId && p < |needed| && !needed[p] ==> Covered(l, p)
  }

  // With these lengths and nothing needed, computing the chunk status fails; with
  // everything needed it does not, although the bitfield is as short.
  lemma StatusCanFail(l: Lengths)
    requires New(1638500, 16385, None) == Ok(l)
    ensures Sane(l) && l.lastPieceId == 99
    ensures !StatusComputable(l, NoneSet(100))
    ensures StatusComputable(l, seq(100, i => true))
  {
    ShortBitfield(l);
    assert !NoneSet(100)[99];
  }

  class ChunkTracker {
    var neededPieces: array<bool>
    var chunkStatus: array<bool>
    var have: array<bool>
    const lengths: Lengths
    const priorityPieceIds: seq<nat>
    const totalSelectedBytes: nat

    ghost predicate Valid()
      reads this, neededPieces, chunkStatus, have
    {
      && Sane(lengths)
      && neededPieces != chunkStatus && neededPieces != have && chunkStatus != have
      && neededPieces.Length == have.Length >= lengths.lastPieceId + 1
      && chunkStatus.Length == ChunkBitfieldBytes(lengths) * 8
      && (forall i :: lengths.lastPieceId < i < neededPieces.Length ==> !neededPieces[i] && !have[i])
      && (forall i :: 0 <= i < |priorityPieceIds| ==> priorityPieceIds[i] <= lengths.lastPieceId)
    }

    ghost function Abs(): (t: Tracker)
      requires Valid()
      reads this, neededPieces, chunkStatus, have
      ensures Shaped(t, lengths.lastPieceId + 1)
    {
      Tracker(neededPieces[..lengths.lastPieceId + 1],
              Cut(lengths, chunkStatus[..]),
              have[..lengths.lastPieceId + 1])
    }

    // A tracker of the given bitfields and chunk bits.
    constructor FromStatus(needed: array<bool>, status: array<bool>, have: array<bool>,
                           lengths: Lengths, priority: seq<nat>, totalSelectedBytes: nat)
      ensures this.neededPieces == needed && this.chunkStatus == status && this.have == have
      ensures this.lengths == lengths && this.totalSelectedBytes == totalSelectedBytes
              && this.priorityPieceIds == priority
    {
      this.neededPieces, this.chunkStatus, this.have := needed, status, have;
      this.lengths, this.priorityPieceIds, this.totalSelectedBytes := lengths, priority, totalSelectedBytes;
    }

    // `new`: every chunk bit of a piece that is not needed is set and no chunk bit of a
    // piece that is. None stands for the panic when the bitfield lacks the range of a piece
    // that is not needed.
    static method New(needed: array<bool>, have: array<bool>, lengths: Lengths, totalSelectedBytes: nat)
      returns (r: Option<ChunkTracker>)
      requires Sane(lengths) && needed != have
      requires needed.Length == have.Length == PieceBitfieldBytes(lengths) * 8
      requires forall i :: lengths.lastPieceId < i < needed.Length ==> !needed[i] && !have[i]
      ensures lengths.lastPieceId < needed.Length
      ensures r.Some? <==> StatusComputable(lengths, needed[..lengths.lastPieceId + 1])
      ensures r.Some? ==>
                var t := r.value;
                && fresh(t) && fresh(t.chunkStatus) && t.Valid()
                && t.neededPieces == needed && t.have == have
                && t.lengths == lengths && t.totalSelectedBytes == totalSelectedBytes
                && t.Abs().needed == needed[..lengths.lastPieceId + 1]
                && t.Abs().have == have[..lengths.lastPieceId + 1]
                && (forall p: nat, c :: p <= lengths.lastPieceId && 0 <= c < |t.Abs().chunks[p]| ==>
                      t.Abs().chunks[p][c] == !needed[p])
                && PriorityIsLastNeeded(t.Abs().needed, t.priorityPieceIds)
    {
      PieceCountFits(lengths);
      PieceCount(lengths);
      var status := ComputeChunkStatus(lengths, needed);
      if status.None? { return None; }
      var priority := LastNeeded(lengths, needed);
      var t := new ChunkTracker.FromStatus(needed, status.value, have, lengths, priority, totalSelectedBytes);
      r := Some(t);
    }

    method ReserveNeededPiece(p: nat)
      requires Valid() && p <= lengths.lastPieceId
      modifies neededPieces
      ensures Valid() && Abs() == ReserveNeeded(old(Abs()), p)
      ensures neededPieces[..] == old(neededPieces[..])[p := false]
    {
      neededPieces[p] := false;
    }

    // The cancelled request's chunk number is not looked at: the piece is needed again
    // unless we have it or every chunk of it already arrived. Nothing happens when the
    // bitfield lacks the piece's range.
    method MarkChunkRequestCancelled(p: nat, chunk: nat) returns (changed: Option<bool>)
      requires Valid() && p <= lengths.lastPieceId
      modifies neededPieces
      ensures Valid()
      ensures changed.None? <==> !old(have[p]) && !Covered(lengths, p)
      ensures changed.None? ==> Abs() == old(Abs())
      ensures changed.Some? ==> Abs() == CancelRequest(old(Abs()), p) && changed.value == !old(have[p])
      ensures neededPieces[p] <==>
                || old(neededPieces[p])
                || (!have[p] && Covered(lengths, p) && exists c :: 0 <= c < |Abs().chunks[p]| && !Abs().chunks[p][c])
      ensures forall i :: 0 <= i < neededPieces.Length && i != p ==> neededPieces[i] == old(neededPieces[i])
    {
      if have[p] { return Some(false); }
      if ChunkRangeEnd(lengths, p) > chunkStatus.Length { return None; }
      var complete := AllInRange(p);
      if !complete { neededPieces[p] := true; }
      changed := Some(true);
    }

    method MarkPieceBrokenIfNotHave(p: nat)
      requires Valid() && p <= lengths.lastPieceId
      modifies neededPieces, chunkStatus
      ensures Valid() && Abs() == MarkBroken(old(Abs()), p)
      ensures have[p] ==> Abs() == old(Abs())
      ensures !have[p] ==> neededPieces[p] && forall c :: 0 <= c < |Abs().chunks[p]| ==> !Abs().chunks[p][c]
      ensures forall q: nat :: q <= lengths.lastPieceId && q != p ==>
                neededPieces[q] == old(neededPieces[q]) && Abs().chunks[q] == old(Abs().chunks[q])
    {
      if have[p] { return; }
      neededPieces[p] := true;
      if ChunkRangeEnd(lengths, p) <= chunkStatus.Length {
        ghost var before := chunkStatus[..];
        FillRange(lengths, chunkStatus, p, false);
        CutAfterRangeWrite(lengths, before, chunkStatus[..], p);
        assert PieceBits(lengths, chunkStatus[..], p) == NoneSet(|Cut(lengths, before)[p]|);
      } else {
        assert old(Abs()).chunks[p := NoneSet(|old(Abs()).chunks[p]|)] == old(Abs()).chunks;
      }
    }

    method MarkPieceDownloaded(p: nat)
      requires Valid() && p <= lengths.lastPieceId
      modifies have
      ensures Valid() && Abs() == MarkDownloaded(old(Abs()), p)
      ensures have[..] == old(have[..])[p := true]
    {
      have[p] := true;
    }

    // `mark_chunk_downloaded`. The source unwraps the piece's range.
    method MarkChunkDownloaded(index: u32, begin: u32, blockLength: u32) returns (r: MarkOutcome)
      requires Valid()
      modifies chunkStatus
      ensures Valid()
      ensures var info := ChunkInfoFromReceivedPiece(lengths, index, begin, blockLength);
              if info.None? then r == NoChunk && Abs() == old(Abs())
              else
                var p, c := info.value.pieceIndex, info.value.chunkIndex;
                && p <= lengths.lastPieceId && c < |old(Abs()).chunks[p]|
                && (if Covered(lengths, p) then
                      && Abs() == MarkChunk(old(Abs()), p, c).0 && r == Marked(MarkChunk(old(Abs()), p, c).1)
                      && ChunkMarked(old(Abs()).chunks, Abs().chunks, p, c, r.result)
                    else
                      Abs() == old(Abs()) && r == RangeMissing)
    {
      hide ChunkInfoFromReceivedPiece, Cut;
      var info := ChunkInfoFromReceivedPiece(lengths, index, begin, blockLength);
      if info.None? { return NoChunk; }
      ReceivedChunkInRange(lengths, index, begin, blockLength);
      if ChunkRangeEnd(lengths, info.value.pieceIndex) > chunkStatus.Length { return RangeMissing; }
      var result := MarkBit(info.value.pieceIndex, info.value.chunkIndex);
      r := Marked(result);
    }

    // Sets one chunk bit of a piece, unless they are all set.
    method MarkBit(p: nat, c: nat) returns (r: ChunkMarkingResult)
      requires Valid() && p <= lengths.lastPieceId && Covered(lengths, p) && c < |Abs().chunks[p]|
      modifies chunkStatus
      ensures Valid() && Abs() == MarkChunk(old(Abs()), p, c).0 && r == MarkChunk(old(Abs()), p, c).1
      ensures ChunkMarked(old(Abs()).chunks, Abs().chunks, p, c, r)
    {
      ghost var before := chunkStatus[..];
      var done := AllInRange(p);
      if done { return PreviouslyCompleted; }
      chunkStatus[ChunkRangeStart(lengths, p) + c] := true;
      CutAfterRangeWrite(lengths, before, chunkStatus[..], p);
      assert PieceBits(lengths, chunkStatus[..], p) == PieceBits(lengths, before, p)[c := true];
      done := AllInRange(p);
      r := if done then Completed else NotCompleted;
    }

    method AllInRange(p: nat) returns (all: bool)
      requires Valid() && p <= lengths.lastPieceId && Covered(lengths, p)
      ensures all == All(Abs().chunks[p])
    {
      RangeNotEmpty(lengths, p);
      hide ChunkRangeStart, ChunkRangeEnd, Fits, All;
      all := AllBits(chunkStatus, ChunkRangeStart(lengths, p), ChunkRangeEnd(lengths, p));
    }

    // The first needed piece, in priority order, that the peer's bitfield has.
    method NextNeededPiece(bitfield: seq<bool>) returns (r: Option<nat>)
      requires Valid()
      ensures IsNextNeeded(Abs().needed, priorityPieceIds, bitfield, r)
      ensures r.Some? ==> r.value <= lengths.lastPieceId && neededPieces[r.value]
                          && r.value < |bitfield| && bitfield[r.value]
    {
      var i := 0;
      while i < |priorityPieceIds|
        invariant 0 <= i <= |priorityPieceIds|
        invariant forall j :: 0 <= j < i ==> !Wanted(Abs().needed, priorityPieceIds[j], bitfield)
      {
        var p := priorityPieceIds[i];
        if neededPieces[p] && p < |bitfield| && bitfield[p] {
          assert Wanted(Abs().needed, p, bitfield);
          return Some(p);
        }
        assert !Wanted(Abs().needed, p, bitfield);
        i := i + 1;
      }
      var n := 0;
      while n < neededPieces.Length
        invariant 0 <= n <= neededPieces.Length
        invariant forall q: nat :: q < n ==> !Wanted(Abs().needed, q, bitfield)
      {
        if neededPieces[n] && n !in priorityPieceIds && n < |bitfield| && bitfield[n] {
          assert Wanted(Abs().needed, n, bitfield);
          return Some(n);
        }
        n := n + 1;
      }
      r := None;
    }

    method CalcHaveBytes() returns (bytes: nat)
      requires Valid()
      ensures bytes == BytesOf(lengths, Abs().have)
    {
      bytes := SumBits(lengths, have);
    }

    method CalcNeededBytes() returns (bytes: nat)
      requires Valid()
      ensures bytes == BytesOf(lengths, Abs().needed)
    {
      bytes := SumBits(lengths, neededPieces);
    }
  }

  // ---- the order in which needed pieces are taken --------------------------------------

  ghost predicate Wanted(needed: seq<bool>, p: nat, bitfield: seq<bool>) {
    p < |needed| && needed[p] && p < |bitfield| && bitfield[p]
  }

  // A wanted priority piece comes first; without one, the lowest wanted piece; and
  // nothing is returned only when no piece is wanted.
  ghost predicate IsNextNeeded(needed: seq<bool>, priority: seq<nat>, bitfield: seq<bool>, r: Option<nat>) {
    match r
    case None => forall q: nat :: !Wanted(needed, q, bitfield)
    case Some(p) =>
      && Wanted(needed, p, bitfield)
      && (p in priority ==> exists i :: 0 <= i < |priority| && priority[i] == p
                              && forall j :: 0 <= j < i ==> !Wanted(needed, priority[j], bitfield))
      && (p !in priority ==>
            && (forall j :: 0 <= j < |priority| ==> !Wanted(needed, priority[j], bitfield))
            && (forall q: nat :: q < p ==> !Wanted(needed, q, bitfield)))
  }

  ghost predicate PriorityIsLastNeeded(needed: seq<bool>, priority: seq<nat>) {
    if |priority| == 0 then forall p :: 0 <= p < |needed| ==> !needed[p]
    else
      && |priority| == 1 && priority[0] < |needed| && needed[priority[0]]
      && forall p :: priority[0] < p < |needed| ==> !needed[p]
  }

  method LastNeeded(lengths: Lengths, needed: array<bool>) returns (priority: seq<nat>)
    requires needed.Length > lengths.lastPieceId
    requires forall i :: lengths.lastPieceId < i < needed.Length ==> !needed[i]
    ensures PriorityIsLastNeeded(needed[..lengths.lastPieceId + 1], priority)
    ensures forall i :: 0 <= i < |priority| ==> priority[i] <= lengths.lastPieceId
  {
    priority := [];
    var id := 0;
    while id < needed.Length
      invariant 0 <= id <= needed.Length
      invariant PriorityIsLastNeeded(needed[..id], priority)
    {
      if needed[id] { priority := [id]; }
      id := id + 1;
    }
    if priority != [] { assert needed[..id][priority[0]]; }
  }

  // A received chunk is one of its piece's bits.
  lemma ReceivedChunkInRange(l: Lengths, index: u32, begin: u32, blockLength: u32)
    requires Sane(l) && ChunkInfoFromReceivedPiece(l, index, begin, blockLength).Some?
    ensures var info := ChunkInfoFromReceivedPiece(l, index, begin, blockLength).value;
            && info.pieceIndex <= l.lastPieceId
            && info.chunkIndex < ChunkRangeEnd(l, info.pieceIndex) - ChunkRangeStart(l, info.pieceIndex)
  {
    var info := ChunkInfoFromReceivedPiece(l, index, begin, blockLength).value;
    RangeNotEmpty(l, info.pieceIndex);
  }

  // `compute_chunk_status` fails exactly when a piece that is not needed has no range.
  method ComputeChunkStatus(lengths: Lengths, needed: array<bool>) returns (r: Option<array<bool>>)
    requires Sane(lengths)
    requires needed.Length > lengths.lastPieceId
    ensures r.Some? <==> StatusComputable(lengths, needed[..lengths.lastPieceId + 1])
    ensures r.Some? ==>
              && fresh(r.value) && r.value.Length == ChunkBitfieldBytes(lengths) * 8
              && forall p: nat :: p <= lengths.lastPieceId ==> AllEqual(PieceBits(lengths, r.value[..], p), !needed[p])
  {
    var status := new bool[ChunkBitfieldBytes(lengths) * 8](i => false);
    var p: nat := 0;
    while p <= lengths.lastPieceId
      invariant p <= lengths.lastPieceId + 1
      invariant forall q: u32 :: q < p && !needed[q] ==> Covered(lengths, q)
      invariant forall q: nat :: q <= lengths.lastPieceId ==>
                  AllEqual(PieceBits(lengths, status[..], q), q < p && !needed[q])
    {
      if !needed[p] {
        if ChunkRangeEnd(lengths, p) > status.Length {
          assert !needed[..lengths.lastPieceId + 1][p];
          return None;
        }
        ghost var before := status[..];
        FillRange(lengths, status, p, true);
        forall q: nat | q <= lengths.lastPieceId && q != p
          ensures PieceBits(lengths, status[..], q) == PieceBits(lengths, before, q)
        {
          OtherRangeKept(lengths, before, status[..], p, q);
        }
      }
      p := p + 1;
    }
    r := Some(status);
  }

  method AllBits(bits: array<bool>, from: nat, to: nat) returns (all: bool)
    requires from <= to <= bits.Length
    ensures all == All(bits[from..to])
  {
    var i := from;
    while i < to
      invariant from <= i <= to
      invariant forall j :: from <= j < i ==> bits[j]
    {
      if !bits[i] {
        assert !bits[from..to][i - from];
        return false;
      }
      i := i + 1;
    }
    all := true;
  }

  ghost predicate AllEqual(bits: seq<bool>, v: bool) {
    forall i :: 0 <= i < |bits| ==> bits[i] == v
  }

  // Set every chunk bit of one piece.
  method FillRange(l: Lengths, bits: array<bool>, p: nat, v: bool)
    requires Sane(l) && p <= l.lastPieceId && ChunkRangeEnd(l, p) <= bits.Length
    modifies bits
    ensures forall i :: 0 <= i < bits.Length ==> bits[i] == if InRange(l, p, i) then v else old(bits[i])
    ensures AllEqual(PieceBits(l, bits[..], p), v)
  {
    RangeNotEmpty(l, p);
    var i := ChunkRangeStart(l, p);
    while i < ChunkRangeEnd(l, p)
      invariant ChunkRangeStart(l, p) <= i <= ChunkRangeEnd(l, p)
      invariant forall j :: 0 <= j < bits.Length ==>
                  bits[j] == if InRange(l, p, j) && j < i then v else old(bits[j])
    {
      bits[i] := v;
      i := i + 1;
    }
  }

  method SumBits(lengths: Lengths, bits: array<bool>) returns (bytes: nat)
    requires bits.Length > lengths.lastPieceId
    ensures bytes == BytesOf(lengths, bits[..lengths.lastPieceId + 1])
  {
    bytes := 0;
    var id := 0;
    while id < bits.Length
      invariant 0 <= id <= bits.Length
      invariant bytes == BytesOf(lengths, bits[..if id <= lengths.lastPieceId then id else lengths.lastPieceId + 1])
    {
      if id <= lengths.lastPieceId {
        assert bits[..id + 1][..id] == bits[..id];
        if bits[id] { bytes := bytes + PieceLength(lengths, id); }
      }
      id := id + 1;
    }
  }
}
