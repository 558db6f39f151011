// create_torrent_file.rs: hashing a list of files into a torrent's pieces, and what
// the resume check makes of the result.
module CreateTorrent {
  import opened Wrappers
  import opened Arithmetic
  import opened FlatFiles
  import L = Lengths
  import CT = ChunkTracker
  import FO = FileOps
  import IC = InitialCheck
  import V = Verdicts

  const READ_SIZE: nat := 8192

  // The digests of the first k full pieces, end to end.
  ghost function PieceHashes(content: Bytes, pieceLength: nat, sha1: Bytes -> FO.Digest, k: nat): seq<byte>
    requires k * pieceLength <= |content|
  {
    if k == 0 then []
    else
      Distribute(k, pieceLength);
      PieceHashes(content, pieceLength, sha1, k - 1) + sha1(content[(k - 1) * pieceLength..k * pieceLength])
  }

  lemma Distribute(k: nat, n: nat)
    requires k > 0
    ensures k * n == (k - 1) * n + n
    ensures (k - 1) * n >= 0
  {
  }

  // Digest p sits at bytes 20p .. 20p+20.
  lemma {:induction false} PieceHashAt(content: Bytes, pieceLength: nat, sha1: Bytes -> FO.Digest, k: nat, p: nat)
    requires k * pieceLength <= |content| && p <= k
    ensures |PieceHashes(content, pieceLength, sha1, k)| == k * 20
    ensures p < k ==>
              && 0 <= p * pieceLength <= p * pieceLength + pieceLength <= |content|
              && PieceHashes(content, pieceLength, sha1, k)[p * 20..p * 20 + 20] ==
                   sha1(content[p * pieceLength..p * pieceLength + pieceLength])
  {
    if k > 0 {
      Distribute(k, pieceLength);
      PieceHashAt(content, pieceLength, sha1, k - 1, if p < k then p else 0);
    }
  }

  lemma PieceHashesLength(content: Bytes, pieceLength: nat, sha1: Bytes -> FO.Digest, k: nat)
    requires k * pieceLength <= |content|
    ensures |PieceHashes(content, pieceLength, sha1, k)| == k * 20
  {
    PieceHashAt(content, pieceLength, sha1, k, 0);
  }

  // What creating a torrent is meant to compute: every full piece's digest, and the
  // digest of what is left, which is written whenever the last file was not empty.
  ghost function TorrentHashes(files: seq<Bytes>, pieceLength: nat, sha1: Bytes -> FO.Digest): seq<byte>
    requires pieceLength > 0
  {
    var content := Flat(files, |files|);
    var full := |content| / pieceLength;
    FullPiecesFit(|content|, pieceLength);
    PieceHashes(content, pieceLength, sha1, full)
    + (if files != [] && files[|files| - 1] != [] then sha1(content[full * pieceLength..]) else [])
  }

  lemma FullPiecesFit(total: nat, pieceLength: nat)
    requires pieceLength > 0
    ensures total / pieceLength >= 0
    ensures 0 <= (total / pieceLength) * pieceLength <= total < (total / pieceLength) * pieceLength + pieceLength
  {
    DivBounds(total, pieceLength);
    assert (total / pieceLength) * pieceLength == pieceLength * (total / pieceLength);
    MulMonotone(pieceLength, 0, total / pieceLength);
  }

  // The variables of the hashing loop: how much of the current piece is missing, what its
  // hasher was fed, and the digests so far.
  datatype Hasher = Hasher(remaining: nat, fed: Bytes, pieces: seq<byte>)

  // The hasher after c bytes of the content, `full` pieces of which are finished.
  ghost predicate HashingAt(content: Bytes, pieceLength: nat, sha1: Bytes -> FO.Digest, c: nat, full: nat, base: nat,
                            h: Hasher)
  {
    && base == full * pieceLength && 0 < h.remaining <= pieceLength
    && c == base + pieceLength - h.remaining <= |content|
    && h.fed == content[base..c]
    && h.pieces == PieceHashes(content, pieceLength, sha1, full)
  }

  // With pieces of no length nothing is ever read.
  ghost predicate Hashing(content: Bytes, pieceLength: nat, sha1: Bytes -> FO.Digest, c: nat, h: Hasher) {
    if pieceLength == 0 then h == Hasher(0, [], [])
    else exists full: nat, base: nat :: HashingAt(content, pieceLength, sha1, c, full, base, h)
  }

  lemma HashingGoesOn(content: Bytes, pieceLength: nat, sha1: Bytes -> FO.Digest, c: nat, h: Hasher, size: nat)
    requires pieceLength > 0 && Hashing(content, pieceLength, sha1, c, h)
    requires 0 < size < h.remaining && c + size <= |content|
    ensures Hashing(content, pieceLength, sha1, c + size,
                    Hasher(h.remaining - size, h.fed + content[c..c + size], h.pieces))
  {
    var full: nat, base: nat :| HashingAt(content, pieceLength, sha1, c, full, base, h);
    JoinSlices(content, base, c, c + size);
    assert HashingAt(content, pieceLength, sha1, c + size, full, base,
                     Hasher(h.remaining - size, h.fed + content[c..c + size], h.pieces));
  }

  lemma HashingEndsPiece(content: Bytes, pieceLength: nat, sha1: Bytes -> FO.Digest, c: nat, h: Hasher)
    requires pieceLength > 0 && Hashing(content, pieceLength, sha1, c, h)
    requires 0 < h.remaining && c + h.remaining <= |content|
    ensures Hashing(content, pieceLength, sha1, c + h.remaining,
                    Hasher(pieceLength, [], h.pieces + sha1(h.fed + content[c..c + h.remaining])))
  {
    var full: nat, base: nat :| HashingAt(content, pieceLength, sha1, c, full, base, h);
    JoinSlices(content, base, c, c + h.remaining);
    Distribute(full + 1, pieceLength);
    assert HashingAt(content, pieceLength, sha1, c + h.remaining, full + 1, base + pieceLength,
                     Hasher(pieceLength, [], h.pieces + sha1(h.fed + content[c..c + h.remaining])));
  }

  // Reads of any size feed the hasher; a piece is finished the moment it is full.
  method FeedRead(data: Bytes, pieceLength: nat, sha1: Bytes -> FO.Digest, h: Hasher, ghost content: Bytes,
                  ghost c: nat)
    returns (h': Hasher)
    requires pieceLength > 0 && Hashing(content, pieceLength, sha1, c, h)
    requires 0 < |data| <= h.remaining && c + |data| <= |content| && data == content[c..c + |data|]
    ensures Hashing(content, pieceLength, sha1, c + |data|, h')
  {
    var fed := h.fed + data;
    var remaining := h.remaining - |data|;
    if remaining == 0 {
      HashingEndsPiece(content, pieceLength, sha1, c, h);
      h' := Hasher(pieceLength, [], h.pieces + sha1(fed));
    } else {
      HashingGoesOn(content, pieceLength, sha1, c, h, |data|);
      h' := Hasher(remaining, fed, h.pieces);
    }
  }

  lemma SomeIsMissing(content: Bytes, pieceLength: nat, sha1: Bytes -> FO.Digest, c: nat, h: Hasher)
    requires Hashing(content, pieceLength, sha1, c, h)
    ensures h.remaining > 0 <==> pieceLength > 0
  {
  }

  lemma NothingIsHashed(content: Bytes, sha1: Bytes -> FO.Digest, c: nat, c': nat, h: Hasher)
    ensures Hashing(content, 0, sha1, c, h) ==> Hashing(content, 0, sha1, c', h)
  {
  }

  lemma HashingStarts(content: Bytes, pieceLength: nat, sha1: Bytes -> FO.Digest)
    ensures Hashing(content, pieceLength, sha1, 0, Hasher(pieceLength, [], []))
  {
    assert pieceLength > 0 ==> HashingAt(content, pieceLength, sha1, 0, 0, 0, Hasher(pieceLength, [], []));
  }

  lemma SliceOfSlice(s: Bytes, a: nat, b: nat, i: nat, j: nat)
    requires a <= b <= |s| && i <= j <= b - a
    ensures s[a..b][i..j] == s[a + i..a + j]
  {
    assert forall k :: 0 <= k < j - i ==> s[a..b][i..j][k] == s[a + i..a + j][k];
  }

  // One read of a file: some of what is left of the file and fits, or nothing at its end.
  method ReadSome(file: Bytes, at: nat, maxBytesToRead: nat) returns (data: Bytes)
    requires at <= |file|
    ensures data == [] <==> maxBytesToRead == 0 || at == |file|
    ensures |data| <= maxBytesToRead && at + |data| <= |file| && data == file[at..at + |data|]
  {
    var size :| 0 <= size <= maxBytesToRead && at + size <= |file|
      && (size == 0 <==> maxBytesToRead == 0 || at == |file|);
    data := file[at..at + size];
  }

  // One file, read until end of file in reads of whatever sizes the system returns.
  method HashFile(file: Bytes, pieceLength: nat, sha1: Bytes -> FO.Digest, h: Hasher, ghost content: Bytes,
                  ghost c: nat)
    returns (length: nat, h': Hasher)
    requires Hashing(content, pieceLength, sha1, c, h)
    requires c + |file| <= |content| && file == content[c..c + |file|]
    ensures length == if pieceLength == 0 then 0 else |file|
    ensures Hashing(content, pieceLength, sha1, c + |file|, h')
  {
    hide Hashing;
    length, h' := 0, h;
    while true
      invariant length <= |file| && (pieceLength == 0 ==> length == 0)
      invariant Hashing(content, pieceLength, sha1, c + length, h')
      decreases |file| - length
    {
      SomeIsMissing(content, pieceLength, sha1, c + length, h');
      var maxBytesToRead := if h'.remaining <= READ_SIZE then h'.remaining else READ_SIZE;
      var data := ReadSome(file, length, maxBytesToRead);
      if data == [] {
        NothingIsHashed(content, sha1, c + length, c + |file|, h');
        return;
      }
      SliceOfSlice(content, c, c + |file|, length, length + |data|);
      h' := FeedRead(data, pieceLength, sha1, h', content, c + length);
      length := length + |data|;
    }
  }

  // The hash string once the whole content was hashed.
  lemma HashingIsDone(content: Bytes, pieceLength: nat, sha1: Bytes -> FO.Digest, h: Hasher)
    requires pieceLength > 0 && Hashing(content, pieceLength, sha1, |content|, h)
    ensures (|content| / pieceLength) * pieceLength <= |content|
    ensures h.pieces == PieceHashes(content, pieceLength, sha1, |content| / pieceLength)
    ensures h.remaining > 0 && h.fed == content[(|content| / pieceLength) * pieceLength..]
  {
    var full: nat, base: nat :| HashingAt(content, pieceLength, sha1, |content|, full, base, h);
    assert full * pieceLength == pieceLength * full;
    DivUnique(|content|, pieceLength, full);
  }

  ghost function LengthsOf(files: seq<Bytes>): (lens: seq<nat>)
    ensures HasLengths(files, lens)
  {
    seq(|files|, i requires 0 <= i < |files| => |files[i]|)
  }

  // A file is read to its end, unless pieces have no length: then it is not read at all.
  ghost function LengthsRead(files: seq<Bytes>, pieceLength: nat): seq<nat> {
    seq(|files|, i requires 0 <= i < |files| => if pieceLength == 0 then 0 else |files[i]|)
  }

  lemma FlatEnds(files: seq<Bytes>, lens: seq<nat>)
    requires HasLengths(files, lens)
    ensures Sum(lens, 0) == 0 && |Flat(files, |files|)| == Sum(lens, |files|)
  {
    FlatLength(files, lens, |files|);
  }

  lemma FileIsSlice(files: seq<Bytes>, lens: seq<nat>, i: nat)
    requires HasLengths(files, lens) && i < |files|
    ensures Sum(lens, i) + |files[i]| == Sum(lens, i + 1) <= |Flat(files, |files|)|
    ensures files[i] == Flat(files, |files|)[Sum(lens, i)..Sum(lens, i) + |files[i]|]
  {
    FlatSlice(files, lens, |files|, i, 0, lens[i]);
    assert files[i][0..lens[i]] == files[i];
  }

  // The file list: the lengths of the files and the hasher that was fed all of them.
  method HashFiles(files: seq<Bytes>, pieceLength: nat, sha1: Bytes -> FO.Digest)
    returns (fileLengths: seq<nat>, length: nat, h: Hasher)
    ensures fileLengths == LengthsRead(files, pieceLength)
    ensures length == if files == [] then 0 else fileLengths[|files| - 1]
    ensures Hashing(Flat(files, |files|), pieceLength, sha1, |Flat(files, |files|)|, h)
  {
    hide Hashing, Sum, Flat;
    ghost var lens, content := LengthsOf(files), Flat(files, |files|);
    fileLengths, length, h := [], 0, Hasher(pieceLength, [], []);
    HashingStarts(content, pieceLength, sha1);
    FlatEnds(files, lens);
    var i: nat := 0;
    while i < |files|
      invariant i <= |files| && |fileLengths| == i
      invariant forall j :: 0 <= j < i ==> fileLengths[j] == if pieceLength == 0 then 0 else |files[j]|
      invariant length == if i == 0 then 0 else fileLengths[i - 1]
      invariant Hashing(content, pieceLength, sha1, Sum(lens, i), h)
    {
      FileIsSlice(files, lens, i);
      length, h := HashFile(files[i], pieceLength, sha1, h, content, Sum(lens, i));
      fileLengths := fileLengths + [length];
      i := i + 1;
    }
  }

  // `create_torrent_raw`: the file lengths and the hash string.
  method CreateTorrentRaw(files: seq<Bytes>, pieceLength: nat, sha1: Bytes -> FO.Digest)
    returns (fileLengths: seq<nat>, pieces: seq<byte>)
    ensures pieceLength > 0 ==> HasLengths(files, fileLengths) && pieces == TorrentHashes(files, pieceLength, sha1)
    ensures pieceLength == 0 ==> pieces == [] && |fileLengths| == |files|
    ensures pieceLength == 0 ==> forall i :: 0 <= i < |files| ==> fileLengths[i] == 0
  {
    var length, h;
    fileLengths, length, h := HashFiles(files, pieceLength, sha1);
    if pieceLength > 0 { HashingIsDone(Flat(files, |files|), pieceLength, sha1, h); }
    pieces := h.pieces;
    if h.remaining > 0 && length > 0 {
      pieces := pieces + sha1(h.fed);
    }
  }

  // The last file is empty but the content does not end at a piece boundary: the
  // digest of the last piece is not written.
  predicate LosesLastHash(files: seq<Bytes>, fileLengths: seq<nat>, pieceLength: nat)
    requires |files| == |fileLengths| && pieceLength > 0
  {
    (files == [] || files[|files| - 1] == []) && Sum(fileLengths, |fileLengths|) % pieceLength != 0
  }

  // What the hash string says about piece p of the torrent.
  lemma HashStringAt(files: seq<Bytes>, lens: seq<nat>, l: L.Lengths, sha1: Bytes -> FO.Digest, p: u32)
    requires HasLengths(files, lens) && L.Valid(l) && Sum(lens, |lens|) == l.totalLength
    requires p <= l.lastPieceId && !LosesLastHash(files, lens, l.pieceLength)
    ensures L.PieceOffset(l, p) + L.PieceLength(l, p) <= |Flat(files, |files|)|
    ensures var piece := Flat(files, |files|)[L.PieceOffset(l, p)..L.PieceOffset(l, p) + L.PieceLength(l, p)];
            FO.CompareHash(TorrentHashes(files, l.pieceLength, sha1), p, sha1(piece)) == Some(true)
  {
    var content := Flat(files, |files|);
    FlatLength(files, lens, |files|);
    FO.PieceEnds(l, p);
    FullPieceCount(l);
    var full := |content| / l.pieceLength;
    FullPiecesFit(|content|, l.pieceLength);
    PieceRange(l, p);
    if p < full {
      DigestOfFullPiece(content, l.pieceLength, sha1, full, p, TorrentHashes(files, l.pieceLength, sha1));
    } else {
      DigestOfLastPiece(content, l.pieceLength, sha1, full, full * l.pieceLength,
                        TorrentHashes(files, l.pieceLength, sha1));
    }
  }

  // Where piece p lies, in terms of the number of full pieces.
  lemma PieceRange(l: L.Lengths, p: u32)
    requires L.Valid(l) && p <= l.lastPieceId
    ensures L.PieceOffset(l, p) == p * l.pieceLength
    ensures p < l.totalLength / l.pieceLength ==> L.PieceLength(l, p) == l.pieceLength
    ensures p >= l.totalLength / l.pieceLength ==>
              p == l.totalLength / l.pieceLength && L.PieceOffset(l, p) + L.PieceLength(l, p) == l.totalLength
  {
    FullPieceCount(l);
  }

  lemma DigestOfFullPiece(content: Bytes, pieceLength: nat, sha1: Bytes -> FO.Digest, full: nat, p: nat,
                          hashes: seq<byte>)
    requires full * pieceLength <= |content| && p < full
    requires PieceHashes(content, pieceLength, sha1, full) <= hashes
    ensures 0 <= p * pieceLength <= p * pieceLength + pieceLength <= |content|
    ensures FO.CompareHash(hashes, p, sha1(content[p * pieceLength..p * pieceLength + pieceLength])) == Some(true)
  {
    PieceHashAt(content, pieceLength, sha1, full, p);
    assert hashes[p * 20..p * 20 + 20] == PieceHashes(content, pieceLength, sha1, full)[p * 20..p * 20 + 20];
  }

  lemma AppendedDigest(hashes: seq<byte>, digest: FO.Digest, k: nat)
    requires |hashes| == k * 20
    ensures FO.CompareHash(hashes + digest, k, digest) == Some(true)
  {
  }

  lemma DigestOfLastPiece(content: Bytes, pieceLength: nat, sha1: Bytes -> FO.Digest, full: nat, base: nat,
                          hashes: seq<byte>)
    requires base == full * pieceLength <= |content|
    requires hashes == PieceHashes(content, pieceLength, sha1, full) + sha1(content[base..])
    ensures FO.CompareHash(hashes, full, sha1(content[base..|content|])) == Some(true)
  {
    hide PieceHashes, FO.CompareHash;
    PieceHashesLength(content, pieceLength, sha1, full);
    assert content[base..] == content[base..|content|];
    AppendedDigest(PieceHashes(content, pieceLength, sha1, full), sha1(content[base..]), full);
  }

  // A last piece of full length ends the content at a piece boundary.
  lemma FullPieceCount(l: L.Lengths)
    requires L.Valid(l)
    ensures l.totalLength / l.pieceLength ==
              if l.lastPieceLength == l.pieceLength then l.lastPieceId + 1 else l.lastPieceId
    ensures l.totalLength % l.pieceLength == 0 <==> l.lastPieceLength == l.pieceLength
  {
    assert l.lastPieceId * l.pieceLength == l.pieceLength * l.lastPieceId;
    if l.lastPieceLength == l.pieceLength {
      assert l.pieceLength * (l.lastPieceId + 1) == l.pieceLength * l.lastPieceId + l.pieceLength;
      DivUnique(l.totalLength, l.pieceLength, l.lastPieceId + 1);
    } else {
      DivUnique(l.totalLength, l.pieceLength, l.lastPieceId);
    }
  }

  lemma HashStringTooShort(files: seq<Bytes>, lens: seq<nat>, l: L.Lengths, sha1: Bytes -> FO.Digest)
    requires HasLengths(files, lens) && L.Valid(l) && Sum(lens, |lens|) == l.totalLength
    ensures LosesLastHash(files, lens, l.pieceLength) ==>
              |TorrentHashes(files, l.pieceLength, sha1)| == l.lastPieceId * 20
    ensures !LosesLastHash(files, lens, l.pieceLength) ==>
              |TorrentHashes(files, l.pieceLength, sha1)| >= (l.lastPieceId + 1) * 20
  {
    var content := Flat(files, |files|);
    FlatLength(files, lens, |files|);
    FullPieceCount(l);
    FullPiecesFit(|content|, l.pieceLength);
    PieceHashAt(content, l.pieceLength, sha1, |content| / l.pieceLength, 0);
  }

  // One byte and an empty file after it: no digest at all, so the check of the only piece
  // does not find one. Without the empty file it does.
  lemma LastHashCanBeLost(sha1: Bytes -> FO.Digest) returns (l: L.Lengths)
    ensures L.New(1, 16384, None) == Ok(l) && L.Valid(l) && l.lastPieceId == 0
    ensures LosesLastHash([[7], []], [1, 0], l.pieceLength)
    ensures FO.CompareHash(TorrentHashes([[7], []], l.pieceLength, sha1), 0, sha1([7])) == None
    ensures FO.CompareHash(TorrentHashes([[7]], l.pieceLength, sha1), 0, sha1([7])) == Some(true)
  {
    hide TorrentHashes, L.New, L.Valid, Flat;
    l := OneBytePiece();
    var lossy: seq<Bytes>, whole: seq<Bytes> := [[7], []], [[7]];
    assert Sum([1, 0], 2) == 1 && Sum([1], 1) == 1;
    HashStringTooShort(lossy, [1, 0], l, sha1);
    HashStringAt(whole, [1], l, sha1, 0);
    assert Flat(whole, 1)[0..1] == [7] by { FlatOne(whole); }
  }

  lemma FlatOne(files: seq<Bytes>)
    requires |files| == 1
    ensures Flat(files, 1) == files[0] && Flat(files, 1)[0..|files[0]|] == files[0]
  {
    assert Flat(files, 0) == [];
  }

  lemma OneBytePiece() returns (l: L.Lengths)
    ensures L.New(1, 16384, None) == Ok(l) && L.Valid(l)
    ensures l.lastPieceId == 0 && l.totalLength == 1 && l.pieceLength == 16384
    ensures L.PieceOffset(l, 0) == 0 && L.PieceLength(l, 0) == 1
  {
    hide L.New, L.Valid, L.IsPowerOfTwo, CeilDiv, L.PieceOffset, L.PieceLength;
    L.ChunkSizeIsPowerOfTwo();
    var created := L.New(1, 16384, None);
    assert created.Ok?;
    l := created.value;
    CeilDivBounds(1, 16384);
    L.NewIsValid(1, 16384, None, l);
    FirstPieceOf(l);
  }

  lemma FirstPieceOf(l: L.Lengths)
    requires L.Valid(l) && l.lastPieceId == 0
    ensures L.PieceOffset(l, 0) == 0 && L.PieceLength(l, 0) == l.totalLength
  {
    assert 0 * l.pieceLength == 0;
  }

  // A piece of files checked against their own hash string is there.
  lemma PieceThere(ops: FO.FileOps, onlyFiles: Option<seq<nat>>, p: u32)
    requires ops.Valid() && HasLengths(ops.files, ops.fileLengths) && L.Valid(ops.lengths)
    requires ops.pieces == TorrentHashes(ops.files, ops.lengths.pieceLength, ops.sha1)
    requires !LosesLastHash(ops.files, ops.fileLengths, ops.lengths.pieceLength) && p <= ops.lengths.lastPieceId
    ensures IC.VerdictOn(ops, onlyFiles, p).Some?
    ensures IC.VerdictOn(ops, onlyFiles, p).value.have && !IC.VerdictOn(ops, onlyFiles, p).value.needed
  {
    hide V.Selected, V.SomeBreaks, V.Fed, FO.AllHold, FO.CompareHash, TorrentHashes, LosesLastHash;
    hide L.PieceOffset, L.PieceLength, L.Valid, Flat;
    var start, end := L.PieceOffset(ops.lengths, p), L.PieceOffset(ops.lengths, p) + L.PieceLength(ops.lengths, p);
    FO.WholeFilesHold(ops.files, ops.fileLengths, start, end);
    HashStringAt(ops.files, ops.fileLengths, ops.lengths, ops.sha1, p);
    FlatLength(ops.files, ops.fileLengths, |ops.files|);
    V.HeldIsFed(ops.files, ops.fileLengths, start, end);
  }

  lemma AllPiecesThere(ops: FO.FileOps, onlyFiles: Option<seq<nat>>, needed: seq<bool>, have: seq<bool>,
                       selected: seq<bool>)
    requires ops.Valid() && HasLengths(ops.files, ops.fileLengths) && L.Valid(ops.lengths)
    requires ops.pieces == TorrentHashes(ops.files, ops.lengths.pieceLength, ops.sha1)
    requires !LosesLastHash(ops.files, ops.fileLengths, ops.lengths.pieceLength)
    requires IC.AllDecided(ops, onlyFiles, needed, have, selected)
    ensures forall p :: 0 <= p < |have| ==> have[p] && !needed[p]
  {
    hide IC.VerdictOn, TorrentHashes, LosesLastHash, L.Valid, HasLengths;
    forall p | 0 <= p < |have|
      ensures have[p] && !needed[p]
    {
      assert IC.Decided(ops, onlyFiles, p, needed[p], have[p], selected[p]);
      PieceThere(ops, onlyFiles, p);
    }
  }

  // The check of files against the hash string created from them.
  method CheckCreated(ops: FO.FileOps, onlyFiles: Option<seq<nat>>)
    returns (r: Result<IC.CheckTotals, FO.FileError>, needed: array<bool>, have: array<bool>)
    requires ops.Valid() && HasLengths(ops.files, ops.fileLengths)
    requires L.Valid(ops.lengths) && ops.lengths.lastPieceId + 1 < U32_LIMIT
    requires ops.pieces == TorrentHashes(ops.files, ops.lengths.pieceLength, ops.sha1)
    ensures r.Ok? <==> !LosesLastHash(ops.files, ops.fileLengths, ops.lengths.pieceLength)
    ensures r.Ok? ==>
              && needed.Length == have.Length > ops.lengths.lastPieceId
              && (forall p :: 0 <= p <= ops.lengths.lastPieceId ==> have[p])
              && (forall p :: 0 <= p < needed.Length ==> !needed[p])
              && r.value.haveBytes == ops.lengths.totalLength && r.value.neededBytes == 0
  {
    hide IC.AllDecided, IC.Checkable, TorrentHashes, LosesLastHash;
    IC.CheckableWhen(ops, onlyFiles);
    ghost var selected;
    r, needed, have, selected := IC.InitialCheck(ops, onlyFiles);
    HashStringTooShort(ops.files, ops.fileLengths, ops.lengths, ops.sha1);
    if r.Ok? {
      var k := ops.lengths.lastPieceId + 1;
      AllPiecesThere(ops, onlyFiles, needed[..k], have[..k], selected);
      assert forall p :: 0 <= p < k ==> have[..k][p] && !needed[..k][p];
      AllBytes(ops.lengths, needed[..k], have[..k]);
    }
  }

  lemma AllBytes(l: L.Lengths, needed: seq<bool>, have: seq<bool>)
    requires L.Valid(l) && |needed| == |have| == l.lastPieceId + 1
    requires forall p :: 0 <= p < |have| ==> have[p] && !needed[p]
    ensures CT.BytesOf(l, have) == l.totalLength && CT.BytesOf(l, needed) == 0
  {
    CT.BytesOfAll(l, have);
    CT.BytesOfNone(l, needed);
    L.PiecesTileTorrent(l, |have|);
  }

  // Creating a torrent and checking the same files against it finds every piece, whatever
  // sizes the reads returned and whatever files are asked for, except when the last
  // piece's digest was lost: then the check fails.
  method CreateThenCheck(files: seq<Bytes>, pieceLength: u32, sha1: Bytes -> FO.Digest, onlyFiles: Option<seq<nat>>)
    returns (fileLengths: seq<nat>, checked: Option<Result<IC.CheckTotals, FO.FileError>>, needed: array<bool>,
             have: array<bool>)
    requires |Flat(files, |files|)| + pieceLength <= U64_LIMIT
    requires pieceLength > 0 ==> CeilDiv(|Flat(files, |files|)|, pieceLength) < U32_LIMIT
    ensures checked.Some? <==> pieceLength >= L.CHUNK_SIZE && |Flat(files, |files|)| > 0
    ensures checked.Some? ==> HasLengths(files, fileLengths)
    ensures checked.Some? ==> (checked.value.Ok? <==> !LosesLastHash(files, fileLengths, pieceLength))
    ensures checked.Some? && checked.value.Ok? ==>
              && needed.Length == have.Length >= CeilDiv(|Flat(files, |files|)|, pieceLength)
              && (forall p :: 0 <= p < CeilDiv(|Flat(files, |files|)|, pieceLength) ==> have[p])
              && (forall p :: 0 <= p < needed.Length ==> !needed[p])
              && checked.value.value ==
                   IC.CheckTotals(|Flat(files, |files|)|, 0, checked.value.value.totalSelectedBytes)
  {
    needed, have, checked := new bool[0], new bool[0], None;
    var pieces;
    fileLengths, pieces := CreateTorrentRaw(files, pieceLength, sha1);
    if pieceLength == 0 { return; }
    FlatLength(files, fileLengths, |files|);
    L.ChunkSizeIsPowerOfTwo();
    var lengths := L.New(Sum(fileLengths, |fileLengths|), pieceLength, None);
    if lengths.Err? { return; }
    L.NewIsValid(Sum(fileLengths, |fileLengths|), pieceLength, None, lengths.value);
    var ops := new FO.FileOps(files, fileLengths, lengths.value, pieces, sha1);
    var r;
    r, needed, have := CheckCreated(ops, onlyFiles);
    checked := Some(r);
  }
}
