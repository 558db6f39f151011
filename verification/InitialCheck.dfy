// `initial_check` of file_ops.rs: which pieces of a torrent are already on disk.
//
// A cursor walks the file list while the outer loop walks the pieces. Files may be shorter or
// longer than declared: a short one breaks at the first read past its end, and is skipped
// from then on.
module InitialCheck {
  import opened Wrappers
  import opened FlatFiles
  import opened Verdicts
  import L = Lengths
  import FO = FileOps
  import CT = ChunkTracker

  // `CurrentFile`: the file being read, how much of it was consumed, whether a read failed.
  datatype Cursor = Cursor(index: nat, processed: nat, broken: bool)

  ghost predicate Placed(lens: seq<nat>, c: Cursor) {
    c.index < |lens| && c.processed <= lens[c.index]
  }

  // The cursor's place in the flat torrent.
  ghost function Place(lens: seq<nat>, c: Cursor): nat
    requires Placed(lens, c)
  {
    Sum(lens, c.index) + c.processed
  }

  // A file breaks at the first read past its end, and then it holds less than was consumed
  // of it.
  ghost predicate BrokenIsShort(files: seq<Bytes>, c: Cursor) {
    c.index < |files| && (c.broken <==> |files[c.index]| < c.processed)
  }

  // Between two pieces the cursor stands in the file of the last byte it read.
  ghost predicate CursorAt(files: seq<Bytes>, lens: seq<nat>, c: Cursor, place: nat) {
    && Placed(lens, c) && Place(lens, c) == place
    && (c.processed > 0 || c.index == 0)
    && BrokenIsShort(files, c)
  }

  // What the cursor's walk from one place to another means for one piece: `required` is
  // set by every required file it met.
  ghost predicate RequiredIsRight(onlyFiles: Option<seq<nat>>, from: Cursor, to: Cursor, required: bool) {
    required <==> exists f :: from.index <= f <= to.index && FullFileRequired(onlyFiles, f)
  }

  // The files between the two cursors are those that the piece meets.
  lemma MetFiles(files: seq<Bytes>, lens: seq<nat>, from: Cursor, to: Cursor, start: nat, end: nat, f: nat)
    requires CursorAt(files, lens, from, start) && CursorAt(files, lens, to, end) && start < end
    ensures from.index <= f <= to.index <==> Meets(lens, f, start, end)
  {
    hide BrokenIsShort;
    if f < from.index { SumMonotone(lens, f, from.index); }
    if f > to.index && f < |lens| { SumMonotone(lens, to.index, f); }
    if from.index < f <= to.index { SumMonotone(lens, from.index, f); }
    if f < to.index { SumMonotone(lens, f, to.index); }
  }

  lemma RequiredIsSelected(files: seq<Bytes>, lens: seq<nat>, onlyFiles: Option<seq<nat>>, from: Cursor, to: Cursor,
                           start: nat, end: nat, required: bool)
    requires CursorAt(files, lens, from, start) && CursorAt(files, lens, to, end) && start < end
    requires RequiredIsRight(onlyFiles, from, to, required)
    ensures required == Selected(lens, onlyFiles, start, end)
  {
    hide Meets, CursorAt, FullFileRequired;
    forall f: nat ensures from.index <= f <= to.index <==> Meets(lens, f, start, end) {
      MetFiles(files, lens, from, to, start, end, f);
    }
  }

  // Keep changing the current file to the next until some of it is left to read.
  method NextNonEmpty(ops: FO.FileOps, onlyFiles: Option<seq<nat>>, current: Cursor, required: bool, ghost from: Cursor)
    returns (r: Result<Cursor, FO.FileError>, required': bool)
    requires ops.Readable() && Placed(ops.fileLengths, current) && from.index <= current.index
    requires RequiredIsRight(onlyFiles, from, current, required) && BrokenIsShort(ops.files, current)
    ensures r == Err(FO.BrokenMetadata) || r.Ok?
    ensures r.Ok? <==> Place(ops.fileLengths, current) < Sum(ops.fileLengths, |ops.fileLengths|)
    ensures r.Ok? ==>
              && Placed(ops.fileLengths, r.value) && r.value.processed < ops.fileLengths[r.value.index]
              && Place(ops.fileLengths, r.value) == Place(ops.fileLengths, current)
              && current.index <= r.value.index && (r.value == current || r.value.processed == 0)
              && BrokenIsShort(ops.files, r.value)
              && RequiredIsRight(onlyFiles, from, r.value, required')
  {
    var c := current;
    required' := required;
    while c.processed == ops.fileLengths[c.index]
      invariant Placed(ops.fileLengths, c) && Place(ops.fileLengths, c) == Place(ops.fileLengths, current)
      invariant current.index <= c.index && (c == current || c.processed == 0)
      invariant BrokenIsShort(ops.files, c)
      invariant RequiredIsRight(onlyFiles, from, c, required')
      decreases |ops.fileLengths| - c.index
    {
      if c.index + 1 == |ops.fileLengths| { return Err(FO.BrokenMetadata), required'; }
      ghost var before, was := c, required';
      c := Cursor(c.index + 1, 0, false);
      required' := required' || FullFileRequired(onlyFiles, c.index);
      RequiredGrows(onlyFiles, from, before, c, was);
    }
    SumMonotone(ops.fileLengths, c.index, |ops.fileLengths|);
    r := Ok(c);
  }

  lemma RequiredGrows(onlyFiles: Option<seq<nat>>, from: Cursor, before: Cursor, after: Cursor, required: bool)
    requires from.index <= before.index && after.index == before.index + 1
    requires RequiredIsRight(onlyFiles, from, before, required)
    ensures RequiredIsRight(onlyFiles, from, after, required || FullFileRequired(onlyFiles, after.index))
  {
  }

  // Reading start..end fails in one of the first k files.
  ghost predicate BreaksBelow(files: seq<Bytes>, lens: seq<nat>, k: nat, start: nat, end: nat)
    requires FO.Paired(files, lens)
  {
    exists f: nat :: f < k && FirstMissingIn(files, lens, f, start, end)
  }

  // What the first k files did to the hasher of start..end and to `some_files_broken`.
  ghost predicate Walked(files: seq<Bytes>, lens: seq<nat>, k: nat, start: nat, end: nat, fed: Bytes, broken: bool)
    requires FO.Paired(files, lens)
  {
    k <= |lens| && fed == Fed(files, lens, k, start, end) && (broken <==> BreaksBelow(files, lens, k, start, end))
  }

  lemma WalkStarts(files: seq<Bytes>, lens: seq<nat>, i: nat, start: nat, end: nat)
    requires FO.Paired(files, lens) && i <= |lens| && Sum(lens, i) <= start
    ensures Walked(files, lens, i, start, end, [], false)
  {
    hide Fed;
    NoneFed(files, lens, i, start, end);
    forall f: nat | f < i ensures !FirstMissingIn(files, lens, f, start, end) { SumMonotone(lens, f, i); }
  }

  lemma NoneFed(files: seq<Bytes>, lens: seq<nat>, i: nat, start: nat, end: nat)
    requires FO.Paired(files, lens) && i <= |lens| && Sum(lens, i) <= start
    ensures Fed(files, lens, i, start, end) == []
  {
    FedByRange(files, lens, 0, i, start, end);
  }

  // Files without a byte change nothing.
  lemma WalkSkips(files: seq<Bytes>, lens: seq<nat>, i: nat, k: nat, start: nat, end: nat, fed: Bytes, broken: bool)
    requires FO.Paired(files, lens) && Walked(files, lens, i, start, end, fed, broken)
    requires i <= k <= |lens| && Sum(lens, i) == Sum(lens, k)
    ensures Walked(files, lens, k, start, end, fed, broken)
  {
    hide Fed;
    forall f: nat | i <= f < k
      ensures ShareFed(files, lens, f, start, end) == [] && !FirstMissingIn(files, lens, f, start, end)
    {
      SumMonotone(lens, i, f);
      SumMonotone(lens, f, k);
      NothingInEmpty(files, lens, f, start, end);
    }
    NothingFedBetween(files, lens, i, k, start, end);
    hide ShareFed, FirstMissingIn, Sum;
  }

  lemma NothingInEmpty(files: seq<Bytes>, lens: seq<nat>, f: nat, start: nat, end: nat)
    requires FO.Paired(files, lens) && f < |lens| && lens[f] == 0
    ensures ShareFed(files, lens, f, start, end) == [] && !FirstMissingIn(files, lens, f, start, end)
  {
    hide Sum;
  }

  lemma WalkReads(files: seq<Bytes>, lens: seq<nat>, i: nat, start: nat, end: nat, fed: Bytes, broken: bool,
                  share: Bytes, failed: bool)
    requires FO.Paired(files, lens) && i < |lens| && Walked(files, lens, i, start, end, fed, broken)
    requires share == ShareFed(files, lens, i, start, end)
    requires failed <==> FirstMissingIn(files, lens, i, start, end)
    ensures Walked(files, lens, i + 1, start, end, fed + share, broken || failed)
  {
    hide ShareFed, FirstMissingIn;
  }

  lemma WalkEnds(files: seq<Bytes>, lens: seq<nat>, k: nat, start: nat, end: nat, fed: Bytes, broken: bool)
    requires FO.Paired(files, lens) && k <= |lens| && Walked(files, lens, k, start, end, fed, broken)
    requires end <= Sum(lens, k)
    ensures fed == Fed(files, lens, |lens|, start, end)
    ensures broken <==> SomeBreaks(files, lens, start, end)
  {
    hide Fed, ShareFed;
    FedByRange(files, lens, k, |lens|, start, end);
    forall f: nat | k <= f < |lens| ensures !FirstMissingIn(files, lens, f, start, end) { SumMonotone(lens, k, f); }
    hide FirstMissingIn, Sum;
    if SomeBreaks(files, lens, start, end) {
      var f :| FirstMissingIn(files, lens, f, start, end);
      MissingIsFile(files, lens, f, start, end);
    }
  }

  lemma MissingIsFile(files: seq<Bytes>, lens: seq<nat>, f: nat, start: nat, end: nat)
    requires FO.Paired(files, lens) && FirstMissingIn(files, lens, f, start, end)
    ensures f < |lens|
  {
  }

  // The read of what the cursor's file has of the rest of the piece is that file's share.
  lemma ReadIsShare(files: seq<Bytes>, lens: seq<nat>, c: Cursor, start: nat, end: nat, toRead: nat)
    requires FO.Paired(files, lens) && Placed(lens, c) && c.processed < lens[c.index]
    requires start <= Place(lens, c) < end && (c.processed == 0 || Place(lens, c) == start)
    requires toRead == Min(lens[c.index] - c.processed, end - Place(lens, c))
    ensures ShareFed(files, lens, c.index, start, end) ==
              FO.BytesFed(files[c.index], c.processed, toRead, READ_BUFFER_SIZE)
    ensures FirstMissingIn(files, lens, c.index, start, end) <==>
              c.processed <= |files[c.index]| < c.processed + toRead
  {
    hide FO.BytesFed, Sum;
  }

  // The inner loop: walks one piece through the files and feeds its bytes to a hasher.
  method ReadPiece(ops: FO.FileOps, onlyFiles: Option<seq<nat>>, start: Cursor, ghost origin: nat, length: nat)
    returns (r: Result<Cursor, FO.FileError>, required: bool, someFilesBroken: bool, fed: Bytes)
    requires ops.Readable() && CursorAt(ops.files, ops.fileLengths, start, origin) && length > 0
    ensures r == Err(FO.BrokenMetadata) || r.Ok?
    ensures r.Ok? <==> origin + length <= Sum(ops.fileLengths, |ops.fileLengths|)
    ensures r.Ok? ==>
              && CursorAt(ops.files, ops.fileLengths, r.value, origin + length)
              && required == Selected(ops.fileLengths, onlyFiles, origin, origin + length)
              && someFilesBroken == SomeBreaks(ops.files, ops.fileLengths, origin, origin + length)
              && fed == Fed(ops.files, ops.fileLengths, |ops.fileLengths|, origin, origin + length)
  {
    hide Walked, RequiredIsRight, BrokenIsShort, Selected, SomeBreaks, Fed, FO.Paired;
    var lens := ops.fileLengths;
    ghost var end := origin + length;
    required, someFilesBroken, fed := FullFileRequired(onlyFiles, start.index), false, [];
    RequiredAtStart(onlyFiles, start);
    SumMonotone(lens, start.index, |lens|);
    WalkStarts(ops.files, lens, start.index, origin, end);
    var c, remaining: nat := start, length;
    ghost var k := start.index;     // the files walked so far
    while remaining > 0
      invariant Placed(lens, c) && BrokenIsShort(ops.files, c) && start.index <= c.index && remaining <= length
      invariant Place(lens, c) == end - remaining <= Sum(lens, |lens|)
      invariant RequiredIsRight(onlyFiles, start, c, required)
      invariant remaining == length ==> c == start && k == c.index && fed == [] && !someFilesBroken
      invariant remaining < length ==> c.processed > 0 && k == c.index + 1
      invariant 0 < remaining < length ==> c.processed == lens[c.index]
      invariant Walked(ops.files, lens, k, origin, end, fed, someFilesBroken)
      decreases remaining
    {
      var next, required' := NextNonEmpty(ops, onlyFiles, c, required, start);
      required := required';
      if next.Err? { return Err(next.error), required, someFilesBroken, fed; }
      NextIsWalked(ops.files, lens, c, next.value, k, origin, end, fed, someFilesBroken);
      c := next.value;
      SumMonotone(lens, c.index, |lens|);
      var rest := lens[c.index] - c.processed;
      var toRead := if rest <= remaining then rest else remaining;
      ReadIsShare(ops.files, lens, c, origin, end, toRead);
      ghost var was, had := fed, someFilesBroken;
      var share, failed;
      c, share, failed := ReadShare(ops, c, toRead);
      fed := fed + share;
      someFilesBroken := someFilesBroken || failed;
      WalkReads(ops.files, lens, c.index, origin, end, was, had, share, failed);
      k, remaining := c.index + 1, remaining - toRead;
      RequiredStays(onlyFiles, start, next.value, c, required);
    }
    WalkEnds(ops.files, lens, k, origin, end, fed, someFilesBroken);
    RequiredIsSelected(ops.files, lens, onlyFiles, start, c, origin, end, required);
    r := Ok(c);
  }

  lemma RequiredAtStart(onlyFiles: Option<seq<nat>>, start: Cursor)
    ensures RequiredIsRight(onlyFiles, start, start, FullFileRequired(onlyFiles, start.index))
  {
  }

  lemma RequiredStays(onlyFiles: Option<seq<nat>>, from: Cursor, c: Cursor, c': Cursor, required: bool)
    requires RequiredIsRight(onlyFiles, from, c, required) && c'.index == c.index
    ensures RequiredIsRight(onlyFiles, from, c', required)
  {
  }

  lemma NextIsWalked(files: seq<Bytes>, lens: seq<nat>, c: Cursor, next: Cursor, k: nat, start: nat, end: nat,
                     fed: Bytes, broken: bool)
    requires FO.Paired(files, lens) && Placed(lens, c) && Placed(lens, next)
    requires Walked(files, lens, k, start, end, fed, broken)
    requires c.index <= next.index && Place(lens, next) == Place(lens, c) && (next == c || next.processed == 0)
    requires if k == c.index then Place(lens, c) == start && fed == [] && !broken
             else k == c.index + 1 && c.processed == lens[c.index] && next.index > c.index
    ensures Walked(files, lens, next.index, start, end, fed, broken)
  {
    hide Walked;
    if k == c.index {
      WalkStarts(files, lens, next.index, start, end);
    } else {
      WalkSkips(files, lens, k, next.index, start, end, fed, broken);
    }
  }

  // What one file has of a piece; a file that broke is not read again.
  method ReadShare(ops: FO.FileOps, c: Cursor, toRead: nat) returns (c': Cursor, share: Bytes, failed: bool)
    requires ops.Readable() && BrokenIsShort(ops.files, c) && 0 < toRead
    ensures c' == c.(processed := c.processed + toRead, broken := c.broken || failed) && BrokenIsShort(ops.files, c')
    ensures share == FO.BytesFed(ops.files[c.index], c.processed, toRead, 65536)
    ensures failed <==> c.processed <= |ops.files[c.index]| < c.processed + toRead
  {
    c', share, failed := c.(processed := c.processed + toRead), [], false;
    if c.broken { return; }
    var ok;
    ok, share := FO.UpdateHashFromFile(ops.files[c.index], c.processed, [], READ_BUFFER_SIZE, toRead);
    if !ok { c', failed := c'.(broken := true), true; }
  }

  datatype CheckTotals = CheckTotals(haveBytes: nat, neededBytes: nat, totalSelectedBytes: nat)

  // What the check is to find out about piece p.
  ghost function VerdictOn(ops: FO.FileOps, onlyFiles: Option<seq<nat>>, p: u32): Option<Verdict>
    requires ops.Readable()
    reads ops
  {
    var start := L.PieceOffset(ops.lengths, p);
    var end := start + L.PieceLength(ops.lengths, p);
    PieceVerdict(ops.files, ops.fileLengths, onlyFiles, ops.pieces, ops.sha1, p, start, end)
  }

  // The part of the torrent that piece p covers is there.
  ghost predicate PieceInside(ops: FO.FileOps, p: u32) {
    L.PieceOffset(ops.lengths, p) + L.PieceLength(ops.lengths, p) <= Sum(ops.fileLengths, |ops.fileLengths|)
  }

  ghost predicate Decided(ops: FO.FileOps, onlyFiles: Option<seq<nat>>, p: u32, needed: bool, have: bool,
                          selected: bool)
    requires ops.Readable()
    reads ops
  {
    PieceInside(ops, p) && VerdictOn(ops, onlyFiles, p) == Some(Verdict(needed, have, selected))
  }

  // The piece meets a file of the filter, or any file when there is none.
  ghost predicate MeetsListed(ops: FO.FileOps, onlyFiles: Option<seq<nat>>, p: u32) {
    var start := L.PieceOffset(ops.lengths, p);
    var end := start + L.PieceLength(ops.lengths, p);
    exists f: nat :: && f < |ops.fileLengths| && (onlyFiles.Some? ==> f in onlyFiles.value)
                     && Sum(ops.fileLengths, f) < end && start <= Sum(ops.fileLengths, f) + ops.fileLengths[f]
  }

  lemma SelectedIsListed(ops: FO.FileOps, onlyFiles: Option<seq<nat>>, p: u32)
    requires L.Valid(ops.lengths) && p <= ops.lengths.lastPieceId && PieceInside(ops, p)
    ensures var start := L.PieceOffset(ops.lengths, p);
            Selected(ops.fileLengths, onlyFiles, start, start + L.PieceLength(ops.lengths, p)) <==>
            MeetsListed(ops, onlyFiles, p)
  {
    hide Sum, L.PieceOffset, L.PieceLength, Selected;
    FO.PieceEnds(ops.lengths, p);
    var start := L.PieceOffset(ops.lengths, p);
    var end := start + L.PieceLength(ops.lengths, p);
    match onlyFiles
    case Some(listed) => ListedFilesSelect(ops.fileLengths, listed, start, end);
    case None =>
      var f := FileOfByte(ops.fileLengths, |ops.fileLengths|, start);
      NoFilterSelects(ops.fileLengths, start, end);
  }

  // The verdict on one piece, once the walk through it is done.
  method DecidePiece(ops: FO.FileOps, onlyFiles: Option<seq<nat>>, p: u32, current: Cursor)
    returns (r: Result<Cursor, FO.FileError>, needed: bool, have: bool, selected: bool)
    requires ops.Readable() && L.Valid(ops.lengths) && p <= ops.lengths.lastPieceId
    requires CursorAt(ops.files, ops.fileLengths, current, L.PieceOffset(ops.lengths, p))
    ensures r.Ok? || r.error == (if PieceInside(ops, p) then FO.HashNotFound else FO.BrokenMetadata)
    ensures r.Ok? <==> PieceInside(ops, p) && VerdictOn(ops, onlyFiles, p).Some?
    ensures r.Ok? ==>
              && CursorAt(ops.files, ops.fileLengths, r.value,
                          L.PieceOffset(ops.lengths, p) + L.PieceLength(ops.lengths, p))
              && Decided(ops, onlyFiles, p, needed, have, selected)
              && (selected <==> MeetsListed(ops, onlyFiles, p)) && (needed <==> selected && !have)
  {
    hide Selected, SomeBreaks, Fed, CursorAt, FO.Paired, FO.CompareHash, MeetsListed;
    FO.PieceEnds(ops.lengths, p);
    needed, have, selected := false, false, false;
    ghost var origin := L.PieceOffset(ops.lengths, p);
    var length := L.PieceLength(ops.lengths, p);
    var next, required, someFilesBroken, fed := ReadPiece(ops, onlyFiles, current, origin, length);
    if next.Err? { return next, needed, have, selected; }
    selected := required;
    SelectedIsListed(ops, onlyFiles, p);
    if required && someFilesBroken {
      needed := true;
      return next, needed, have, selected;
    }
    var same := FO.CompareHash(ops.pieces, p, ops.sha1(fed));
    if same.None? { return Err(FO.HashNotFound), needed, have, selected; }
    if same.value {
      have := true;
    } else if required {
      needed := true;
    }
    r := next;
  }

  lemma DecidedIs(ops: FO.FileOps, onlyFiles: Option<seq<nat>>, p: u32, needed: bool, have: bool, selected: bool)
    requires ops.Readable() && L.Valid(ops.lengths) && p <= ops.lengths.lastPieceId
    requires Decided(ops, onlyFiles, p, needed, have, selected)
    ensures selected <==> MeetsListed(ops, onlyFiles, p)
    ensures needed <==> selected && !have
  {
    hide Selected, SomeBreaks, Fed, FO.CompareHash, MeetsListed;
    SelectedIsListed(ops, onlyFiles, p);
  }

  // The decisions on the first pieces, and their byte totals.
  ghost predicate AllDecided(ops: FO.FileOps, onlyFiles: Option<seq<nat>>, needed: seq<bool>, have: seq<bool>,
                             selected: seq<bool>)
    requires ops.Readable()
    reads ops
  {
    && |needed| == |have| == |selected| <= ops.lengths.lastPieceId + 1
    && forall p: u32 :: p < |needed| ==> Decided(ops, onlyFiles, p, needed[p], have[p], selected[p])
  }

  ghost predicate Totalled(l: L.Lengths, needed: seq<bool>, have: seq<bool>, selected: seq<bool>, totals: CheckTotals) {
    && |needed| == |have| == |selected| <= l.lastPieceId + 1
    && totals.neededBytes == CT.BytesOf(l, needed)
    && totals.haveBytes == CT.BytesOf(l, have)
    && totals.totalSelectedBytes == CT.BytesOf(l, selected)
  }

  function AddPiece(l: L.Lengths, totals: CheckTotals, p: u32, needed: bool, have: bool, selected: bool): CheckTotals {
    var len := L.PieceLength(l, p);
    CheckTotals(if have then totals.haveBytes + len else totals.haveBytes,
                if needed then totals.neededBytes + len else totals.neededBytes,
                if selected then totals.totalSelectedBytes + len else totals.totalSelectedBytes)
  }

  lemma TotalledExtends(l: L.Lengths, needed: seq<bool>, have: seq<bool>, selected: seq<bool>, totals: CheckTotals,
                        n: bool, h: bool, s: bool)
    requires Totalled(l, needed, have, selected, totals) && |needed| <= l.lastPieceId
    ensures Totalled(l, needed + [n], have + [h], selected + [s], AddPiece(l, totals, |needed|, n, h, s))
  {
    assert (needed + [n])[..|needed|] == needed && (have + [h])[..|have|] == have
             && (selected + [s])[..|selected|] == selected;
  }

  // Sets one bit of a bitfield whose later bits are all clear.
  method RecordBit(bits: array<bool>, p: nat, v: bool, ghost before: seq<bool>)
    requires p < bits.Length && bits[..p] == before && forall i :: p <= i < bits.Length ==> !bits[i]
    modifies bits
    ensures bits[..p + 1] == before + [v] && forall i :: p < i < bits.Length ==> !bits[i]
  {
    if v { bits[p] := true; }
  }

  // The bitfields hold the decisions on the first |selected| pieces and nothing else.
  ghost predicate Recorded(ops: FO.FileOps, onlyFiles: Option<seq<nat>>,
                           neededPieces: array<bool>, havePieces: array<bool>, selected: seq<bool>, totals: CheckTotals)
    requires ops.Readable()
    reads ops, neededPieces, havePieces
  {
    var p := |selected|;
    && p <= ops.lengths.lastPieceId + 1 <= neededPieces.Length == havePieces.Length
    && (forall i :: p <= i < neededPieces.Length ==> !neededPieces[i])
    && (forall i :: p <= i < havePieces.Length ==> !havePieces[i])
    && AllDecided(ops, onlyFiles, neededPieces[..p], havePieces[..p], selected)
    && Totalled(ops.lengths, neededPieces[..p], havePieces[..p], selected, totals)
  }

  // Where the outer loop stands after p pieces.
  ghost predicate AtPiece(ops: FO.FileOps, current: Cursor, p: nat)
    reads ops
  {
    && p <= ops.lengths.lastPieceId + 1
    && CursorAt(ops.files, ops.fileLengths, current, L.SumPieceLengths(ops.lengths, p))
  }

  // One round of the outer loop.
  method CheckNext(ops: FO.FileOps, onlyFiles: Option<seq<nat>>, p: u32, current: Cursor,
                   neededPieces: array<bool>, havePieces: array<bool>, ghost selected: seq<bool>, totals: CheckTotals)
    returns (r: Result<Cursor, FO.FileError>, ghost selected': seq<bool>, totals': CheckTotals)
    requires ops.Readable() && L.Valid(ops.lengths) && neededPieces != havePieces
    requires p == |selected| <= ops.lengths.lastPieceId
    requires AtPiece(ops, current, p) && Recorded(ops, onlyFiles, neededPieces, havePieces, selected, totals)
    modifies neededPieces, havePieces
    ensures r.Ok? <==> PieceInside(ops, p) && VerdictOn(ops, onlyFiles, p).Some?
    ensures r.Ok? ==> |selected'| == p + 1 && AtPiece(ops, r.value, p + 1)
                      && Recorded(ops, onlyFiles, neededPieces, havePieces, selected', totals')
  {
    hide Decided, Totalled, CursorAt, VerdictOn, MeetsListed, FO.Paired, L.PieceOffset, L.PieceLength;
    ghost var ns, hs := neededPieces[..p], havePieces[..p];
    L.PiecesTileTorrent(ops.lengths, p);
    var next, needed, have, wanted := DecidePiece(ops, onlyFiles, p, current);
    selected' := selected + [wanted];
    totals' := AddPiece(ops.lengths, totals, p, needed, have, wanted);
    r := next;
    if next.Err? { return; }
    TotalledExtends(ops.lengths, ns, hs, selected, totals, needed, have, wanted);
    RecordBit(neededPieces, p, needed, ns);
    RecordBit(havePieces, p, have, hs);
  }

  // Every piece is in the files and has a verdict.
  ghost predicate Checkable(ops: FO.FileOps, onlyFiles: Option<seq<nat>>)
    requires ops.Readable()
    reads ops
  {
    |ops.fileLengths| > 0
    && forall p: u32 :: p <= ops.lengths.lastPieceId ==> PieceInside(ops, p) && VerdictOn(ops, onlyFiles, p).Some?
  }

  // So a check of a torrent can only fail by its hash string: a long enough one is always
  // enough, and when no file is shorter than declared it is also necessary.
  lemma CheckableWhen(ops: FO.FileOps, onlyFiles: Option<seq<nat>>)
    requires ops.Valid() && L.Valid(ops.lengths)
    ensures |ops.pieces| >= (ops.lengths.lastPieceId + 1) * 20 ==> Checkable(ops, onlyFiles)
    ensures FO.Whole(ops.files, ops.fileLengths) && Checkable(ops, onlyFiles) ==>
              |ops.pieces| >= (ops.lengths.lastPieceId + 1) * 20
  {
    hide Fed, Selected, SomeBreaks, FO.ContentOf;
    var l := ops.lengths;
    L.PiecesTileTorrent(l, l.lastPieceId + 1);
    forall p: u32 | p <= l.lastPieceId ensures PieceInside(ops, p) { FO.PieceEnds(l, p); }
    if FO.Whole(ops.files, ops.fileLengths) {
      var start := L.PieceOffset(l, l.lastPieceId);
      var end := start + L.PieceLength(l, l.lastPieceId);
      assert PieceInside(ops, l.lastPieceId);
      FO.WholeFilesHold(ops.files, ops.fileLengths, start, end);
      HeldIsFed(ops.files, ops.fileLengths, start, end);
      assert VerdictOn(ops, onlyFiles, l.lastPieceId).Some? ==> |ops.pieces| >= (l.lastPieceId + 1) * 20;
    }
  }

  // The whole check. It reports an error only for metadata that does not fit: files
  // that hold fewer bytes than the pieces, or a hash string that is too short.
  method InitialCheck(ops: FO.FileOps, onlyFiles: Option<seq<nat>>)
    returns (r: Result<CheckTotals, FO.FileError>, neededPieces: array<bool>, havePieces: array<bool>,
             ghost selected: seq<bool>)
    requires ops.Readable() && L.Valid(ops.lengths) && ops.lengths.lastPieceId + 1 < U32_LIMIT
    ensures r.Ok? <==> Checkable(ops, onlyFiles)
    ensures fresh(neededPieces) && fresh(havePieces) && neededPieces != havePieces
    ensures neededPieces.Length == havePieces.Length == L.PieceBitfieldBytes(ops.lengths) * 8 > ops.lengths.lastPieceId
    ensures r.Ok? ==> |selected| == ops.lengths.lastPieceId + 1
                      && Recorded(ops, onlyFiles, neededPieces, havePieces, selected, r.value)
    ensures r.Ok? ==> forall p: u32 :: p <= ops.lengths.lastPieceId ==>
              && (selected[p] <==> MeetsListed(ops, onlyFiles, p))
              && (neededPieces[p] <==> selected[p] && !havePieces[p])
  {
    neededPieces, havePieces := NewBitfields(ops.lengths);
    r, selected := CheckAll(ops, onlyFiles, neededPieces, havePieces);
    if r.Ok? {
      forall p: u32 | p <= ops.lengths.lastPieceId
        ensures selected[p] <==> MeetsListed(ops, onlyFiles, p)
        ensures neededPieces[p] <==> selected[p] && !havePieces[p]
      {
        DecidedIs(ops, onlyFiles, p, neededPieces[p], havePieces[p], selected[p]);
      }
    }
  }

  method NewBitfields(l: L.Lengths) returns (a: array<bool>, b: array<bool>)
    requires l.lastPieceId + 1 < U32_LIMIT
    ensures fresh(a) && fresh(b) && a != b
    ensures a.Length == b.Length == L.PieceBitfieldBytes(l) * 8 > l.lastPieceId
    ensures forall i :: 0 <= i < a.Length ==> !a[i] && !b[i]
  {
    L.PieceCount(l);
    a := new bool[L.PieceBitfieldBytes(l) * 8](i => false);
    b := new bool[L.PieceBitfieldBytes(l) * 8](i => false);
  }

  method CheckAll(ops: FO.FileOps, onlyFiles: Option<seq<nat>>, neededPieces: array<bool>, havePieces: array<bool>)
    returns (r: Result<CheckTotals, FO.FileError>, ghost selected: seq<bool>)
    requires ops.Readable() && L.Valid(ops.lengths) && neededPieces != havePieces
    requires ops.lengths.lastPieceId < neededPieces.Length == havePieces.Length
    requires forall i :: 0 <= i < neededPieces.Length ==> !neededPieces[i] && !havePieces[i]
    modifies neededPieces, havePieces
    ensures r.Ok? <==> Checkable(ops, onlyFiles)
    ensures r.Ok? ==> |selected| == ops.lengths.lastPieceId + 1
                      && Recorded(ops, onlyFiles, neededPieces, havePieces, selected, r.value)
  {
    hide AtPiece, Recorded, VerdictOn, PieceInside;
    selected := [];
    if |ops.fileLengths| == 0 { return Err(FO.EmptyFileList), selected; }
    var current := Cursor(0, 0, false);
    var totals := CheckTotals(0, 0, 0);
    var p: nat := 0;
    NothingChecked(ops, onlyFiles, neededPieces, havePieces);
    while p <= ops.lengths.lastPieceId
      invariant p == |selected| <= ops.lengths.lastPieceId + 1
      invariant AtPiece(ops, current, p) && Recorded(ops, onlyFiles, neededPieces, havePieces, selected, totals)
      invariant forall q: u32 :: q < p ==> PieceInside(ops, q) && VerdictOn(ops, onlyFiles, q).Some?
    {
      var next;
      next, selected, totals := CheckNext(ops, onlyFiles, p, current, neededPieces, havePieces, selected, totals);
      if next.Err? { return Err(next.error), selected; }
      current := next.value;
      p := p + 1;
    }
    r := Ok(totals);
  }

  lemma NothingChecked(ops: FO.FileOps, onlyFiles: Option<seq<nat>>, neededPieces: array<bool>, havePieces: array<bool>)
    requires ops.Readable() && |ops.fileLengths| > 0
    requires ops.lengths.lastPieceId < neededPieces.Length == havePieces.Length
    requires forall i :: 0 <= i < neededPieces.Length ==> !neededPieces[i] && !havePieces[i]
    ensures AtPiece(ops, Cursor(0, 0, false), 0)
    ensures Recorded(ops, onlyFiles, neededPieces, havePieces, [], CheckTotals(0, 0, 0))
  {
  }

  // What the decisions add up to: needed and have are disjoint, needed is selected,
  // selected is needed or had; and without a file filter the needed and the had bytes
  // are the whole torrent.
  lemma CheckTotalsAddUp(ops: FO.FileOps, onlyFiles: Option<seq<nat>>, needed: seq<bool>, have: seq<bool>,
                         selected: seq<bool>, totals: CheckTotals)
    requires ops.Readable() && L.Valid(ops.lengths) && |selected| == ops.lengths.lastPieceId + 1
    requires AllDecided(ops, onlyFiles, needed, have, selected) && Totalled(ops.lengths, needed, have, selected, totals)
    ensures var known := totals.neededBytes + totals.haveBytes;
            && totals.neededBytes <= totals.totalSelectedBytes <= known <= ops.lengths.totalLength
            && (onlyFiles.None? ==> totals.totalSelectedBytes == known == ops.lengths.totalLength)
  {
    var l := ops.lengths;
    forall p: u32 | p < |needed|
      ensures !(needed[p] && have[p]) && (needed[p] ==> selected[p]) && (selected[p] ==> needed[p] || have[p])
      ensures onlyFiles.None? ==> selected[p]
    {
      assert Decided(ops, onlyFiles, p, needed[p], have[p], selected[p]);
      FO.PieceEnds(l, p);
      if onlyFiles.None? {
        NoFilterSelects(ops.fileLengths, L.PieceOffset(l, p), L.PieceOffset(l, p) + L.PieceLength(l, p));
      }
    }
    var known := seq(|needed|, p requires 0 <= p < |needed| => needed[p] || have[p]);
    var all := seq(|needed|, p => true);
    CT.BytesOfDisjoint(l, needed, have, known);
    CT.BytesMonotone(l, needed, selected);
    CT.BytesMonotone(l, selected, known);
    CT.BytesMonotone(l, known, all);
    CT.BytesOfAll(l, all);
    L.PiecesTileTorrent(l, |needed|);
    if onlyFiles.None? {
      assert selected == all;
      assert known == all;
    }
  }
}
