// Piece and chunk arithmetic of a torrent: lengths.rs.
//
// The source computes in u32 and u64. Every product and sum that can leave its
// width is written here with the wrap-around of a release build; `Fits` says
// when none of them wraps, and the lemmas show what the functions mean then.
module Lengths {
  import opened Wrappers
  import opened Arithmetic

  const CHUNK_SIZE: u32 := 16384

  datatype ChunkInfo = ChunkInfo(
    pieceIndex: u32, chunkIndex: u32, absoluteIndex: u32, size: u32, offset: u32)

  datatype LengthsError = ChunkLengthNotPowerOfTwo | ChunkLengthAbovePieceLength | ZeroLength

  datatype Lengths = Lengths(
    chunkLength: u32,
    totalLength: u64,
    pieceLength: u32,
    lastPieceId: u32,
    lastPieceLength: u32,
    maxChunksPerPiece: u32)

  function Wrap32(x: nat): u32 { if x < U32_LIMIT then x else x % U32_LIMIT }

  function Wrap64(x: nat): u64 { if x < U64_LIMIT then x else x % U64_LIMIT }

  function Mul32(a: u32, b: u32): u32 {
    MulMonotone(a, 0, b);
    Wrap32(a * b)
  }

  function Sub32(a: u32, b: u32): u32 { if b <= a then a - b else a + U32_LIMIT - b }

  function Div32(a: u32, b: u32): u32
    requires b > 0
  {
    DivBounds(a, b);
    a / b
  }

  function CeilDivU64(a: u64, b: u64): u64
    requires b > 0
  {
    DivBounds(Wrap64(a + b - 1), b);
    Wrap64(a + b - 1) / b
  }

  function LastElementSizeU64(total: u64, chunkSize: u64): u64
    requires chunkSize > 0
  {
    var rem := total % chunkSize;
    if rem == 0 then chunkSize else rem
  }

  predicate IsPowerOfTwo(x: nat) {
    x == 1 || (x > 1 && x % 2 == 0 && IsPowerOfTwo(x / 2))
  }

  // `new` succeeds exactly on a power-of-two chunk length that is not above the
  // piece length and a nonempty torrent.
  function New(totalLength: u64, pieceLength: u32, chunkLengthOption: Option<u32>): (r: Result<Lengths, LengthsError>)
    ensures var chunk := if chunkLengthOption.Some? then chunkLengthOption.value else CHUNK_SIZE;
            r.Ok? <==> IsPowerOfTwo(chunk) && chunk <= pieceLength && totalLength > 0
  {
    var chunkLength := if chunkLengthOption.Some? then chunkLengthOption.value else CHUNK_SIZE;
    if !IsPowerOfTwo(chunkLength) then Err(ChunkLengthNotPowerOfTwo)
    else if chunkLength > pieceLength then Err(ChunkLengthAbovePieceLength)
    else if totalLength == 0 then Err(ZeroLength)
    else
      var totalPieces := Wrap32(CeilDivU64(totalLength, pieceLength));
      Ok(Lengths(
           chunkLength := chunkLength,
           totalLength := totalLength,
           pieceLength := pieceLength,
           lastPieceId := Sub32(totalPieces, 1),
           lastPieceLength := Wrap32(LastElementSizeU64(totalLength, pieceLength)),
           maxChunksPerPiece := Wrap32(CeilDivU64(pieceLength, chunkLength))))
  }

  lemma ChunkSizeIsPowerOfTwo()
    ensures IsPowerOfTwo(CHUNK_SIZE)
  {
    assert IsPowerOfTwo(1) && IsPowerOfTwo(2) && IsPowerOfTwo(4) && IsPowerOfTwo(8) && IsPowerOfTwo(16);
    assert IsPowerOfTwo(32) && IsPowerOfTwo(64) && IsPowerOfTwo(128) && IsPowerOfTwo(256) && IsPowerOfTwo(512);
    assert IsPowerOfTwo(1024) && IsPowerOfTwo(2048) && IsPowerOfTwo(4096) && IsPowerOfTwo(8192);
  }

  // The shape every Lengths has when its piece count fits a u32.
  ghost predicate Valid(l: Lengths) {
    && 0 < l.chunkLength <= l.pieceLength
    && 0 < l.lastPieceLength <= l.pieceLength
    && l.lastPieceId * l.pieceLength + l.lastPieceLength == l.totalLength
    && l.maxChunksPerPiece == CeilDiv(l.pieceLength, l.chunkLength)
  }

  // No u32 product or sum over piece and chunk indices wraps.
  ghost predicate Fits(l: Lengths) {
    && l.pieceLength + l.chunkLength <= U32_LIMIT
    && (l.lastPieceId + 1) * l.maxChunksPerPiece < U32_LIMIT
    && l.totalLength + l.chunkLength <= U64_LIMIT
  }

  // When the piece count fits a u32 the result describes a torrent cut into full
  // pieces and one last piece.
  lemma NewIsValid(totalLength: u64, pieceLength: u32, chunkLengthOption: Option<u32>, l: Lengths)
    requires New(totalLength, pieceLength, chunkLengthOption) == Ok(l)
    requires totalLength + pieceLength <= U64_LIMIT
    requires CeilDiv(totalLength, pieceLength) < U32_LIMIT
    ensures Valid(l) && l.totalLength == totalLength && l.pieceLength == pieceLength
    ensures l.lastPieceId + 1 == CeilDiv(totalLength, pieceLength)
  {
    LastPiece(totalLength, pieceLength, CeilDiv(totalLength, pieceLength));
    RoundedUpFits(totalLength, pieceLength);
    RoundedUpFits(pieceLength, l.chunkLength);
    assert l.lastPieceId * l.pieceLength == l.pieceLength * l.lastPieceId;
  }

  lemma RoundedUpFits(a: u64, b: u64)
    requires a > 0 && b > 0 && a + b <= U64_LIMIT
    ensures CeilDivU64(a, b) == CeilDiv(a, b)
    ensures 0 < CeilDiv(a, b) <= a
    ensures 0 < LastElementSizeU64(a, b) <= b
  {
    CeilDivBounds(a, b);
    DivBounds(a, b);
  }

  // Cutting `total` into pieces leaves q - 1 full pieces and a last one that is never empty.
  lemma LastPiece(total: nat, pieceLength: nat, q: nat)
    requires pieceLength > 0 && total > 0 && q == CeilDiv(total, pieceLength)
    ensures q > 0
    ensures var rem := total % pieceLength;
            pieceLength * (q - 1) + (if rem == 0 then pieceLength else rem) == total
  {
    CeilDivBounds(total, pieceLength);
    assert pieceLength * (q - 1) == pieceLength * q - pieceLength;
    if total == pieceLength * q {
      DivUnique(total, pieceLength, q);
    } else {
      DivUnique(total, pieceLength, q - 1);
    }
  }

  function TotalPieces(l: Lengths): u32 { Wrap32(l.lastPieceId + 1) }

  function ValidatePieceIndex(l: Lengths, index: u32): Option<u32> {
    if index > l.lastPieceId then None else Some(index)
  }

  function TotalChunks(l: Lengths): u32
    requires l.chunkLength > 0
  {
    Wrap32(CeilDivU64(l.totalLength, l.chunkLength))
  }

  function PieceBitfieldBytes(l: Lengths): nat { CeilDivU64(TotalPieces(l), 8) }

  function ChunkBitfieldBytes(l: Lengths): nat
    requires l.chunkLength > 0
  {
    CeilDivU64(TotalChunks(l), 8)
  }

  function PieceLength(l: Lengths, index: u32): u32 {
    if index == l.lastPieceId then l.lastPieceLength else l.pieceLength
  }

  function PieceOffset(l: Lengths, index: u32): nat { index * l.pieceLength }

  function ChunkAbsoluteOffset(l: Lengths, c: ChunkInfo): nat { PieceOffset(l, c.pieceIndex) + c.offset }

  function ChunksPerPiece(l: Lengths, index: u32): u32
    requires l.chunkLength > 0
  {
    if index == l.lastPieceId then
      Div32(Wrap32(l.lastPieceLength + l.chunkLength - 1), l.chunkLength)
    else l.maxChunksPerPiece
  }

  // `chunk_range`: the half-open range of a piece's bits in the chunk bitfield.
  function ChunkRangeStart(l: Lengths, index: u32): u32 { Mul32(index, l.maxChunksPerPiece) }

  function ChunkRangeEnd(l: Lengths, index: u32): u32
    requires l.chunkLength > 0
  {
    Wrap32(ChunkRangeStart(l, index) + ChunksPerPiece(l, index))
  }

  function ChunkOffsetInPiece(l: Lengths, pieceIndex: u32, chunkIndex: u32): Option<u32>
    requires l.chunkLength > 0
  {
    if chunkIndex >= ChunksPerPiece(l, pieceIndex) then None
    else Some(Mul32(chunkIndex, l.chunkLength))
  }

  function ChunkSize(l: Lengths, pieceIndex: u32, chunkIndex: u32): Option<u32>
    requires l.chunkLength > 0
  {
    if chunkIndex >= ChunksPerPiece(l, pieceIndex) then None
    else
      var offset := Mul32(chunkIndex, l.chunkLength);
      var rest := Sub32(PieceLength(l, pieceIndex), offset);
      Some(if l.chunkLength <= rest then l.chunkLength else rest)
  }

  function ChunkInfoFromReceivedData(l: Lengths, pieceIndex: u32, begin: u32, chunkSize: u32): Option<ChunkInfo>
    requires l.chunkLength > 0
  {
    var index := Div32(begin, l.chunkLength);
    var expectedSize := ChunkSize(l, pieceIndex, index);
    var offset := ChunkOffsetInPiece(l, pieceIndex, index);
    if expectedSize.None? || offset.None? then None
    else if offset.value != begin then None
    else if expectedSize.value != chunkSize then None
    else Some(ChunkInfo(
                pieceIndex := pieceIndex, chunkIndex := index,
                absoluteIndex := Wrap32(Mul32(l.maxChunksPerPiece, pieceIndex) + index),
                size := chunkSize, offset := begin))
  }

  function ChunkInfoFromReceivedPiece(l: Lengths, index: u32, begin: u32, blockLength: u32): Option<ChunkInfo>
    requires l.chunkLength > 0
  {
    var p := ValidatePieceIndex(l, index);
    if p.None? then None else ChunkInfoFromReceivedData(l, p.value, begin, blockLength)
  }

  // ---- what the chunk functions mean when nothing wraps -------------------------------

  ghost predicate Sane(l: Lengths) { Valid(l) && Fits(l) }

  lemma PieceCount(l: Lengths)
    requires l.lastPieceId + 1 < U32_LIMIT
    ensures TotalPieces(l) == l.lastPieceId + 1
    ensures PieceBitfieldBytes(l) * 8 >= TotalPieces(l)
  {
  }

  lemma PieceCountFits(l: Lengths)
    requires Sane(l)
    ensures l.lastPieceId + 1 < U32_LIMIT
  {
    CeilDivBounds(l.pieceLength, l.chunkLength);
    MulMonotone(l.lastPieceId + 1, 1, l.maxChunksPerPiece);
  }

  lemma ChunkCount(l: Lengths, p: u32)
    requires Sane(l) && p <= l.lastPieceId
    ensures ChunksPerPiece(l, p) == CeilDiv(PieceLength(l, p), l.chunkLength)
    ensures 0 < ChunksPerPiece(l, p) <= l.maxChunksPerPiece
    ensures var bytes := l.chunkLength * ChunksPerPiece(l, p);
            bytes - l.chunkLength < PieceLength(l, p) <= bytes
  {
    hide CeilDiv, ChunksPerPiece, Fits;
    var length := PieceLength(l, p);
    ChunksRoundUp(l, p);
    CeilDivBounds(length, l.chunkLength);
    CeilDivBounds(l.pieceLength, l.chunkLength);
    FewerMultiples(l.chunkLength, CeilDiv(length, l.chunkLength), l.maxChunksPerPiece, length);
  }

  lemma ChunksRoundUp(l: Lengths, p: u32)
    requires Sane(l) && p <= l.lastPieceId
    ensures ChunksPerPiece(l, p) == CeilDiv(PieceLength(l, p), l.chunkLength)
  {
  }

  lemma FewerMultiples(c: nat, x: nat, y: nat, total: nat)
    requires c > 0 && c * x - c < total <= c * y
    ensures x <= y
  {
    if x > y { MulStrict(c, y, x); }
  }

  lemma ChunkRange(l: Lengths, p: u32)
    requires Sane(l) && p <= l.lastPieceId
    ensures ChunkRangeStart(l, p) == p * l.maxChunksPerPiece
    ensures ChunkRangeEnd(l, p) == p * l.maxChunksPerPiece + ChunksPerPiece(l, p) < U32_LIMIT
    ensures ChunkRangeEnd(l, p) <= (p + 1) * l.maxChunksPerPiece
  {
    ChunkCount(l, p);
    ProductFits(p, l.lastPieceId, l.maxChunksPerPiece);
  }

  lemma ProductFits(p: nat, last: nat, m: nat)
    requires p <= last
    ensures p * m + m == (p + 1) * m <= (last + 1) * m
  {
    MulMonotone(m, p + 1, last + 1);
    assert (p + 1) * m == p * m + m;
  }

  // Distinct pieces own disjoint bits of the chunk bitfield, in piece order.
  lemma ChunkRangesDisjoint(l: Lengths, p: u32, q: u32)
    requires Sane(l) && p < q <= l.lastPieceId
    ensures ChunkRangeStart(l, p) < ChunkRangeEnd(l, p) <= ChunkRangeStart(l, q) < ChunkRangeEnd(l, q)
  {
    ChunkRange(l, p);
    ChunkRange(l, q);
    ChunkCount(l, p);
    ChunkCount(l, q);
    MulMonotone(l.maxChunksPerPiece, p + 1, q);
    assert (p + 1) * l.maxChunksPerPiece == l.maxChunksPerPiece * (p + 1);
    assert q * l.maxChunksPerPiece == l.maxChunksPerPiece * q;
  }

  // The k-th chunk of piece p.
  ghost function ChunkAt(l: Lengths, p: u32, k: u32): (c: ChunkInfo)
    requires Sane(l) && p <= l.lastPieceId && k < ChunksPerPiece(l, p)
    ensures c.pieceIndex == p && c.chunkIndex == k
  {
    ChunkFieldsFit(l, p, k);
    var offset: u32 := l.chunkLength * k;
    ChunkInfo(p, k, ChunkRangeStart(l, p) + k,
              if k + 1 < ChunksPerPiece(l, p) then l.chunkLength else PieceLength(l, p) - offset,
              offset)
  }

  lemma ChunkFieldsFit(l: Lengths, p: u32, k: u32)
    requires Sane(l) && p <= l.lastPieceId && k < ChunksPerPiece(l, p)
    ensures 0 <= l.chunkLength * k < PieceLength(l, p)
    ensures ChunkRangeStart(l, p) + k < U32_LIMIT
  {
    ChunkBounds(l, p, k);
    ChunkRange(l, p);
    MulMonotone(l.chunkLength, 0, k);
  }

  lemma ChunkBounds(l: Lengths, p: u32, k: nat)
    requires Sane(l) && p <= l.lastPieceId && k < ChunksPerPiece(l, p)
    ensures l.chunkLength * k < PieceLength(l, p)
    ensures PieceLength(l, p) - l.chunkLength * k <= l.chunkLength <==> k + 1 == ChunksPerPiece(l, p)
    ensures l.chunkLength * (k + 1) == l.chunkLength * k + l.chunkLength
  {
    ChunkCount(l, p);
    var c: nat := ChunksPerPiece(l, p);
    if k + 1 < c { MulStrict(l.chunkLength, k + 1, c); }
  }

  // The chunks of a piece tile it: the first starts at 0, each starts where the one
  // before it ends, none is empty or above the chunk length, the last ends the piece.
  lemma ChunksTilePiece(l: Lengths, p: u32, k: u32)
    requires Sane(l) && p <= l.lastPieceId && k < ChunksPerPiece(l, p)
    ensures k == 0 ==> ChunkAt(l, p, k).offset == 0
    ensures k + 1 < ChunksPerPiece(l, p) ==>
              ChunkAt(l, p, k + 1).offset == ChunkAt(l, p, k).offset + ChunkAt(l, p, k).size
    ensures k + 1 == ChunksPerPiece(l, p) ==>
              ChunkAt(l, p, k).offset + ChunkAt(l, p, k).size == PieceLength(l, p)
    ensures 0 < ChunkAt(l, p, k).size <= l.chunkLength
    ensures ChunkAt(l, p, k).offset + ChunkAt(l, p, k).size <= PieceLength(l, p)
    ensures ChunkRangeStart(l, p) <= ChunkAt(l, p, k).absoluteIndex < ChunkRangeEnd(l, p)
  {
    ChunkBounds(l, p, k);
    ChunkRange(l, p);
  }

  lemma ChunkSizeAt(l: Lengths, p: u32, k: u32)
    requires Sane(l) && p <= l.lastPieceId
    ensures k < ChunksPerPiece(l, p) ==>
              && ChunkSize(l, p, k) == Some(ChunkAt(l, p, k).size)
              && ChunkOffsetInPiece(l, p, k) == Some(ChunkAt(l, p, k).offset)
    ensures k >= ChunksPerPiece(l, p) ==> ChunkSize(l, p, k).None? && ChunkOffsetInPiece(l, p, k).None?
  {
    if k >= ChunksPerPiece(l, p) { return; }
    ChunkBounds(l, p, k);
    assert k * l.chunkLength == l.chunkLength * k;
    assert Mul32(k, l.chunkLength) == ChunkAt(l, p, k).offset;
  }

  // A received (piece, begin, size) is accepted exactly when some chunk of that piece
  // starts at `begin` and has that size, and then that chunk is what comes back.
  lemma ReceivedDataIsExactlyAChunk(l: Lengths, p: u32, begin: u32, size: u32)
    requires Sane(l) && p <= l.lastPieceId
    ensures ChunkInfoFromReceivedData(l, p, begin, size).Some? <==> exists k: u32 :: IsChunk(l, p, k, begin, size)
    ensures forall k: u32 :: IsChunk(l, p, k, begin, size) ==>
              ChunkInfoFromReceivedData(l, p, begin, size) == Some(ChunkAt(l, p, k))
  {
    var index := Div32(begin, l.chunkLength);
    var r := ChunkInfoFromReceivedData(l, p, begin, size);
    if r.Some? {
      ChunkSizeAt(l, p, index);
      assert IsChunk(l, p, index, begin, size);
    }
    forall k: u32 | IsChunk(l, p, k, begin, size)
      ensures r == Some(ChunkAt(l, p, k))
    {
      ReceivedChunkIsFound(l, p, k);
    }
  }

  ghost predicate IsChunk(l: Lengths, p: u32, k: u32, begin: u32, size: u32)
    requires Sane(l) && p <= l.lastPieceId
  {
    k < ChunksPerPiece(l, p) && ChunkAt(l, p, k).offset == begin && ChunkAt(l, p, k).size == size
  }

  lemma ReceivedChunkIsFound(l: Lengths, p: u32, k: u32)
    requires Sane(l) && p <= l.lastPieceId && k < ChunksPerPiece(l, p)
    ensures var c := ChunkAt(l, p, k);
            ChunkInfoFromReceivedData(l, p, c.offset, c.size) == Some(c)
  {
    var c := ChunkAt(l, p, k);
    DivUnique(c.offset, l.chunkLength, k);
    ChunkSizeAt(l, p, k);
    ChunkRange(l, p);
    assert l.maxChunksPerPiece * p == p * l.maxChunksPerPiece;
  }

  // `iter_chunk_infos`: the running `remaining` and `offset` produce exactly the chunks in order.
  method IterChunkInfos(l: Lengths, p: u32) returns (chunks: seq<ChunkInfo>)
    requires Sane(l) && p <= l.lastPieceId
    ensures |chunks| == ChunksPerPiece(l, p)
    ensures forall k: u32 :: k < |chunks| ==> chunks[k] == ChunkAt(l, p, k)
  {
    chunks := [];
    var remaining := PieceLength(l, p);
    var offset: u32 := 0;
    var absoluteOffset := Mul32(p, l.maxChunksPerPiece);
    var idx: u32 := 0;
    ChunkCount(l, p);
    ChunkRange(l, p);
    while remaining != 0
      invariant idx == |chunks| <= ChunksPerPiece(l, p)
      invariant offset + remaining == PieceLength(l, p)
      invariant idx < ChunksPerPiece(l, p) ==> offset == ChunkAt(l, p, idx).offset
      invariant remaining == 0 <==> idx == ChunksPerPiece(l, p)
      invariant forall k: u32 :: k < |chunks| ==> chunks[k] == ChunkAt(l, p, k)
      decreases remaining
    {
      ChunksTilePiece(l, p, idx);
      ChunkBounds(l, p, idx);
      if idx + 1 < ChunksPerPiece(l, p) { ChunksTilePiece(l, p, idx + 1); }
      var s := if remaining <= l.chunkLength then remaining else l.chunkLength;
      var info := ChunkInfo(p, idx, Wrap32(absoluteOffset + idx), s, offset);
      chunks := chunks + [info];
      offset := offset + s;
      remaining := remaining - s;
      idx := idx + 1;
    }
  }

  // ---- pieces tile the torrent --------------------------------------------------------

  // Summed length of the pieces below n.
  ghost function SumPieceLengths(l: Lengths, n: nat): nat
    requires n <= l.lastPieceId + 1
  {
    if n == 0 then 0 else SumPieceLengths(l, n - 1) + PieceLength(l, n - 1)
  }

  // Pieces are laid end to end, and together they are exactly the torrent.
  lemma {:induction false} PiecesTileTorrent(l: Lengths, n: nat)
    requires Valid(l) && n <= l.lastPieceId + 1
    ensures n <= l.lastPieceId ==> SumPieceLengths(l, n) == PieceOffset(l, n)
    ensures n == l.lastPieceId + 1 ==> SumPieceLengths(l, n) == l.totalLength
  {
    if n > 0 {
      PiecesTileTorrent(l, n - 1);
      assert n * l.pieceLength == (n - 1) * l.pieceLength + l.pieceLength;
    }
  }

  // ---- chunk bitfield size ------------------------------------------------------------

  // The chunk bitfield has a bit for every chunk of piece p.
  predicate Covered(l: Lengths, p: u32)
    requires l.chunkLength > 0
  {
    ChunkRangeEnd(l, p) <= ChunkBitfieldBytes(l) * 8
  }

  // It has one for every chunk of every piece.
  predicate ChunkBitfieldCovers(l: Lengths)
    requires l.chunkLength > 0
  {
    Covered(l, l.lastPieceId)
  }

  // The covered pieces are the first ones.
  lemma CoveredBelow(l: Lengths, p: u32, q: u32)
    requires Sane(l) && p <= q <= l.lastPieceId && Covered(l, q)
    ensures Covered(l, p)
  {
    if p < q { ChunkRangesDisjoint(l, p, q); }
  }

  // When the chunk length divides the piece length the chunk ranges partition
  // 0..total_chunks, so the bitfield covers every piece.
  lemma ChunkRangesPartition(l: Lengths, p: u32)
    requires Sane(l) && p <= l.lastPieceId
    requires l.pieceLength % l.chunkLength == 0
    ensures p < l.lastPieceId ==> ChunkRangeEnd(l, p) == ChunkRangeStart(l, p + 1)
    ensures ChunkRangeStart(l, 0) == 0
    ensures ChunkRangeEnd(l, l.lastPieceId) == TotalChunks(l)
    ensures ChunkBitfieldCovers(l)
  {
    var d := l.pieceLength / l.chunkLength;
    DivBounds(l.pieceLength, l.chunkLength);
    CeilDivUnique(l.pieceLength, l.chunkLength, d);
    ChunkRange(l, p);
    ChunkRange(l, 0);
    ChunkRange(l, l.lastPieceId);
    if p < l.lastPieceId {
      ChunkRange(l, p + 1);
      assert (p + 1) * d == p * d + d;
    }
    TotalChunkCount(l);
  }

  // Without waste there are as many chunks as slots.
  lemma TotalChunkCount(l: Lengths)
    requires Sane(l)
    requires l.pieceLength == l.chunkLength * l.maxChunksPerPiece
    ensures TotalChunks(l) == l.lastPieceId * l.maxChunksPerPiece + ChunksPerPiece(l, l.lastPieceId)
    ensures TotalChunks(l) < U32_LIMIT && ChunkBitfieldBytes(l) * 8 >= TotalChunks(l)
  {
    hide CeilDiv, CeilDivU64, TotalChunks, ChunkBitfieldBytes, ChunksPerPiece, ChunkRangeEnd;
    ChunkRange(l, l.lastPieceId);
    ChunkCount(l, l.lastPieceId);
    var k := CeilDiv(l.lastPieceLength, l.chunkLength);
    SlotsWithoutWaste(l.chunkLength, l.maxChunksPerPiece, l.lastPieceId, k, l.lastPieceLength, l.totalLength);
    TotalChunksFit(l, l.lastPieceId * l.maxChunksPerPiece + k);
    RoundedToBytes(TotalChunks(l));
  }

  lemma SlotsWithoutWaste(c: nat, m: nat, n: nat, k: nat, lastLength: nat, total: nat)
    requires c > 0 && c * k - c < lastLength <= c * k && lastLength > 0
    requires total == n * (c * m) + lastLength
    ensures 0 < CeilDiv(total, c) == n * m + k
  {
    hide CeilDiv;
    MulShuffle(c, n, m);
    assert c * (n * m + k) == c * (n * m) + c * k;
    MulMonotone(c, 0, m);
    MulMonotone(n, 0, c * m);
    CeilDivUnique(total, c, n * m + k);
  }

  lemma MulShuffle(a: int, b: int, c: int)
    ensures a * (b * c) == b * (a * c)
  {
    assert a * (b * c) == (a * b) * c;
    assert b * (a * c) == (b * a) * c;
  }

  // Bits between a number of chunks and the end of their last byte.
  function Padding(chunks: nat): nat { (8 - chunks % 8) % 8 }

  // For all lengths: every piece but the last has slots for the maximal number of chunks,
  // and so wastes `chunkLength * maxChunksPerPiece - pieceLength` bytes of slots. The
  // bitfield, one bit per chunk of the whole torrent rounded up to bytes, covers every
  // piece exactly when the whole slots wasted fit the padding of its last byte.
  lemma ChunkBitfieldCoversIff(l: Lengths)
    requires Sane(l)
    ensures var k := CeilDiv(l.lastPieceLength, l.chunkLength);
            var wasted := WastedSlots(l.chunkLength, l.maxChunksPerPiece, l.pieceLength, l.lastPieceId, k,
                                      l.lastPieceLength);
            && CeilDiv(l.totalLength, l.chunkLength) == l.lastPieceId * l.maxChunksPerPiece + k - wasted
            && (ChunkBitfieldCovers(l) <==> wasted <= Padding(CeilDiv(l.totalLength, l.chunkLength)))
    ensures ChunkBitfieldCovers(l) <==> forall p: u32 :: p <= l.lastPieceId ==> Covered(l, p)
  {
    SlotsAreEnough(l);
    forall p: u32 | p <= l.lastPieceId && ChunkBitfieldCovers(l) ensures Covered(l, p) {
      CoveredBelow(l, p, l.lastPieceId);
    }
    hide CeilDiv, TotalChunks, ChunkBitfieldBytes, ChunkRangeEnd, WastedSlots, Padding, Valid, Fits;
    var n, k := l.lastPieceId, CeilDiv(l.lastPieceLength, l.chunkLength);
    SlotsMinusWaste(l.chunkLength, l.maxChunksPerPiece, l.pieceLength, n, k, l.lastPieceLength, l.totalLength);
    TotalChunksFit(l, n * l.maxChunksPerPiece + k);
    RoundedToBytes(CeilDiv(l.totalLength, l.chunkLength));
  }

  // Whole chunk slots that n pieces of m slots and a last one of k leave unused.
  function WastedSlots(c: nat, m: nat, pieceLength: nat, n: nat, k: nat, lastLength: nat): (w: nat)
    requires c > 0 && pieceLength <= c * m && lastLength <= c * k
  {
    MulMonotone(n, 0, c * m - pieceLength);
    DivBounds(n * (c * m - pieceLength) + (c * k - lastLength), c);
    (n * (c * m - pieceLength) + (c * k - lastLength)) / c
  }

  lemma SlotsAreEnough(l: Lengths)
    requires Sane(l)
    ensures l.chunkLength > 0 && l.pieceLength <= l.chunkLength * l.maxChunksPerPiece
    ensures l.lastPieceLength <= l.chunkLength * CeilDiv(l.lastPieceLength, l.chunkLength)
    ensures l.totalLength == l.lastPieceId * l.pieceLength + l.lastPieceLength && l.totalLength > 0
    ensures ChunkRangeEnd(l, l.lastPieceId) ==
              l.lastPieceId * l.maxChunksPerPiece + CeilDiv(l.lastPieceLength, l.chunkLength)
    ensures ChunkRangeEnd(l, l.lastPieceId) < U32_LIMIT
  {
    hide CeilDiv, ChunkRangeEnd, ChunksPerPiece;
    CeilDivBounds(l.pieceLength, l.chunkLength);
    CeilDivBounds(l.lastPieceLength, l.chunkLength);
    ChunkRange(l, l.lastPieceId);
    ChunkCount(l, l.lastPieceId);
    MulMonotone(l.pieceLength, 0, l.lastPieceId);
    assert l.lastPieceId * l.pieceLength == l.pieceLength * l.lastPieceId;
  }

  lemma SlotsMinusWaste(c: nat, m: nat, pieceLength: nat, n: nat, k: nat, lastLength: nat, total: nat)
    requires c > 0 && pieceLength <= c * m && lastLength <= c * k
    requires total == n * pieceLength + lastLength > 0
    ensures 0 < CeilDiv(total, c) == n * m + k - WastedSlots(c, m, pieceLength, n, k, lastLength)
  {
    hide CeilDiv;
    var waste := n * (c * m - pieceLength) + (c * k - lastLength);
    SlotBytes(c, m, pieceLength, n, k, lastLength);
    var q := waste / c;
    DivBounds(waste, c);
    assert c * (n * m + k - q) == c * (n * m + k) - c * q;
    CeilDivUnique(total, c, n * m + k - q);
  }

  // The slots hold the torrent and the waste.
  lemma SlotBytes(c: nat, m: nat, pieceLength: nat, n: nat, k: nat, lastLength: nat)
    ensures c * (n * m + k) == (n * pieceLength + lastLength) + (n * (c * m - pieceLength) + (c * k - lastLength))
  {
    assert n * (c * m - pieceLength) == n * (c * m) - n * pieceLength;
    MulShuffle(c, n, m);
    assert c * (n * m + k) == c * (n * m) + c * k;
  }

  lemma RoundedToBytes(chunks: nat)
    ensures 8 * CeilDiv(chunks, 8) == chunks + Padding(chunks)
  {
  }

  lemma TotalChunksFit(l: Lengths, end: nat)
    requires Sane(l) && 0 < CeilDiv(l.totalLength, l.chunkLength) <= end < U32_LIMIT
    ensures TotalChunks(l) == CeilDiv(l.totalLength, l.chunkLength)
    ensures ChunkBitfieldBytes(l) == CeilDiv(CeilDiv(l.totalLength, l.chunkLength), 8)
  {
    hide CeilDiv, CeilDivU64;
    RoundedUpFits(l.totalLength, l.chunkLength);
    RoundedUpFits(CeilDiv(l.totalLength, l.chunkLength), 8);
  }

  // The source does not ask the chunk length to divide the piece length, and then the
  // bitfield can be too short: `compute_chunk_status` unwraps a range past its end.
  lemma ChunkBitfieldCanBeTooShort()
    ensures exists l: Lengths ::
              && New(1638500, 16385, None) == Ok(l)
              && Sane(l) && !ChunkBitfieldCovers(l)
  {
    ChunkSizeIsPowerOfTwo();
    var l := New(1638500, 16385, None).value;
    ShortBitfield(l);
  }

  lemma ShortBitfield(l: Lengths)
    requires New(1638500, 16385, None) == Ok(l)
    ensures l == Lengths(16384, 1638500, 16385, 99, 16385, 2)
    ensures Sane(l) && !Covered(l, 99)
  {
    assert CeilDiv(16385, 16384) == 2;
    assert TotalChunks(l) == 101;
    assert ChunkBitfieldBytes(l) == 13;
    assert ChunkRangeEnd(l, 99) == 200;
  }
}
