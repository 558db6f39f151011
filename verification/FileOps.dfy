// file_ops.rs: chunks are read from and written to a list of files, and pieces are
// hashed out of it.
//
// A file is its content; the operating system's part (opening, seeking, handles) is
// left out. A write past the end of a file fills the gap with zeros, a read past it fails.
// A file may be shorter or longer than declared: only its declared part is ever used.
module FileOps {
  import opened Wrappers
  import Arithmetic
  import L = Lengths
  import opened Lengths
  import opened FlatFiles

  type Digest = d: seq<byte> | |d| == 20 witness seq(20, i => 0)

  datatype FileError = ReadError | NoCapacity | HashNotFound | EmptyFileList | BrokenMetadata

  function Zeros(n: nat): Bytes { seq(n, i => 0) }

  // The content of a file after seeking to a position and `write_all`. Writing nothing
  // leaves it as it was.
  function WriteAt(content: Bytes, pos: nat, data: Bytes): Bytes {
    if data == [] then content
    else
      var padded := if |content| < pos + |data| then content + Zeros(pos + |data| - |content|) else content;
      Splice(padded, pos, data)
  }

  // The declared part of a file, which reads as zeros beyond the file's end.
  function View(content: Bytes, len: nat): (v: Bytes)
    ensures |v| == len
  {
    if len <= |content| then content[..len] else content + Zeros(len - |content|)
  }

  // `get_hash`/`compare_hash`: piece p's digest is bytes 20p .. 20p+20 of the hash string.
  function CompareHash(pieces: seq<byte>, p: nat, hash: Digest): Option<bool> {
    if p * 20 + 20 <= |pieces| then Some(pieces[p * 20..p * 20 + 20] == hash) else None
  }

  // What reading `bytesToRead` bytes of a file feeds to a hasher: those bytes; or, when the
  // file lacks some of them, the full read buffers before the one that fails.
  function BytesFed(content: Bytes, pos: nat, bytesToRead: nat, bufferLength: nat): Bytes
    requires bufferLength > 0
  {
    if bytesToRead == 0 then []
    else if pos + bytesToRead <= |content| then content[pos..pos + bytesToRead]
    else if |content| <= pos then []
    else
      Arithmetic.DivBounds(|content| - pos, bufferLength);
      content[pos..pos + bufferLength * ((|content| - pos) / bufferLength)]
  }

  lemma AllFed(content: Bytes, pos: nat, bytesToRead: nat, bufferLength: nat)
    requires bufferLength > 0 && pos + bytesToRead <= |content|
    ensures BytesFed(content, pos, bytesToRead, bufferLength) == content[pos..pos + bytesToRead]
  {
  }

  // `update_hash_from_file`. The hasher's state is the bytes it was fed.
  method UpdateHashFromFile(content: Bytes, pos: nat, fed: Bytes, bufferLength: nat, bytesToRead: nat)
    returns (ok: bool, fed': Bytes)
    requires bufferLength > 0
    ensures ok <==> bytesToRead == 0 || pos + bytesToRead <= |content|
    ensures fed' == fed + BytesFed(content, pos, bytesToRead, bufferLength)
  {
    hide BytesFed;
    var read: nat, rest: nat := 0, bytesToRead;
    ghost var buffers: nat := 0;
    fed' := fed;
    while rest > 0
      invariant read + rest == bytesToRead
      invariant read == 0 <==> buffers == 0
      invariant read == 0 ==> fed' == fed
      invariant read > 0 ==> pos + read <= |content| && fed' == fed + content[pos..pos + read]
      invariant rest > 0 ==> read == bufferLength * buffers
      decreases rest
    {
      var chunk := if bufferLength <= rest then bufferLength else rest;
      if |content| < pos + read + chunk {
        FedUpTo(content, pos, bytesToRead, bufferLength, buffers);
        return false, fed';
      }
      fed' := fed' + content[pos + read..pos + read + chunk];
      FedMore(fed, content, pos, read, chunk);
      NextBuffer(bufferLength, buffers);
      read, rest, buffers := read + chunk, rest - chunk, buffers + 1;
    }
    if bytesToRead > 0 {
      AllFed(content, pos, bytesToRead, bufferLength);
    } else {
      NoneFed(content, pos, bufferLength);
    }
    ok := true;
  }

  lemma NoneFed(content: Bytes, pos: nat, bufferLength: nat)
    requires bufferLength > 0
    ensures BytesFed(content, pos, 0, bufferLength) == []
  {
  }

  // The read of one more buffer fails.
  lemma FedUpTo(content: Bytes, pos: nat, bytesToRead: nat, bufferLength: nat, buffers: nat)
    requires bufferLength > 0 && pos + bytesToRead > |content|
    requires |content| < pos + bufferLength * buffers + bufferLength
    requires buffers > 0 ==> pos + bufferLength * buffers <= |content|
    ensures BytesFed(content, pos, bytesToRead, bufferLength) ==
              if buffers == 0 then [] else content[pos..pos + bufferLength * buffers]
  {
    if |content| > pos {
      if buffers == 0 { assert bufferLength * buffers == 0; }
      Arithmetic.DivUnique(|content| - pos, bufferLength, buffers);
    } else if buffers > 0 {
      Arithmetic.MulMonotone(bufferLength, 1, buffers);
    }
  }

  lemma FedMore(fed: Bytes, content: Bytes, pos: nat, read: nat, chunk: nat)
    requires pos + read + chunk <= |content|
    ensures fed + content[pos..pos + read] + content[pos + read..pos + read + chunk] ==
              fed + content[pos..pos + read + chunk]
  {
    JoinSlices(content, pos, pos + read, pos + read + chunk);
    assert fed + content[pos..pos + read] + content[pos + read..pos + read + chunk]
        == fed + (content[pos..pos + read] + content[pos + read..pos + read + chunk]);
  }

  lemma NextBuffer(bufferLength: nat, buffers: nat)
    ensures bufferLength * (buffers + 1) == bufferLength * buffers + bufferLength
  {
  }

  // There is a file for every declared length.
  ghost predicate Paired(files: seq<Bytes>, lens: seq<nat>) { |files| == |lens| }

  // No file is shorter than declared.
  ghost predicate Whole(files: seq<Bytes>, lens: seq<nat>) {
    |files| == |lens| && forall i :: 0 <= i < |files| ==> |files[i]| >= lens[i]
  }

  // No file got shorter, and none grew beyond its declared length.
  ghost predicate Grown(before: seq<Bytes>, after: seq<Bytes>, lens: seq<nat>) {
    && |before| == |after| == |lens|
    && forall i :: 0 <= i < |lens| ==>
         |before[i]| <= |after[i]| && (|after[i]| <= lens[i] || |after[i]| == |before[i]|)
  }

  lemma NothingGrown(files: seq<Bytes>, lens: seq<nat>)
    requires Paired(files, lens)
    ensures Grown(files, files, lens)
  {
  }

  lemma GrownTwice(a: seq<Bytes>, b: seq<Bytes>, c: seq<Bytes>, lens: seq<nat>)
    requires Grown(a, b, lens) && Grown(b, c, lens)
    ensures Grown(a, c, lens)
  {
  }

  // The declared parts of the files.
  ghost function Views(files: seq<Bytes>, lens: seq<nat>): (v: seq<Bytes>)
    requires Paired(files, lens)
    ensures HasLengths(v, lens)
    ensures forall i :: 0 <= i < |files| ==> v[i] == View(files[i], lens[i])
    ensures HasLengths(files, lens) ==> v == files
  {
    ViewsOfWhole(files, lens);
    seq(|files|, i requires 0 <= i < |files| => View(files[i], lens[i]))
  }

  lemma ViewsOfWhole(files: seq<Bytes>, lens: seq<nat>)
    requires Paired(files, lens)
    ensures HasLengths(files, lens) ==> forall i :: 0 <= i < |files| ==> View(files[i], lens[i]) == files[i]
  {
  }

  // The whole torrent's content.
  ghost function ContentOf(files: seq<Bytes>, lens: seq<nat>): (c: Bytes)
    requires Paired(files, lens)
    ensures |c| == Sum(lens, |lens|)
  {
    FlatLength(Views(files, lens), lens, |files|);
    Flat(Views(files, lens), |files|)
  }

  lemma WriteAtIsSplice(content: Bytes, len: nat, pos: nat, data: Bytes)
    requires pos + |data| <= len
    ensures var after := WriteAt(content, pos, data);
            && |content| <= |after| && (|after| <= len || |after| == |content|)
            && (data == [] ==> after == content)
            && (data != [] && |content| < pos + |data| ==> |after| == pos + |data|)
            && View(after, len) == Splice(View(content, len), pos, data)
            && forall k :: |content| <= k < len ==>
                 View(content, len)[k] == 0 && (k < |after| && k < pos ==> after[k] == 0)
  {
    var after := WriteAt(content, pos, data);
    forall k | 0 <= k < len ensures View(after, len)[k] == Splice(View(content, len), pos, data)[k] {}
  }

  // Writing into one file overwrites the same bytes of the torrent.
  lemma FileWrite(files: seq<Bytes>, lens: seq<nat>, i: nat, pos: nat, data: Bytes)
    requires Paired(files, lens) && i < |files| && pos + |data| <= lens[i]
    ensures var files' := files[i := WriteAt(files[i], pos, data)];
            && Paired(files', lens) && Grown(files, files', lens)
            && Sum(lens, i) + pos + |data| <= |ContentOf(files, lens)|
            && ContentOf(files', lens) == Splice(ContentOf(files, lens), Sum(lens, i) + pos, data)
  {
    hide WriteAt, View, Splice, Sum, Flat;
    WriteAtIsSplice(files[i], lens[i], pos, data);
    var files' := files[i := WriteAt(files[i], pos, data)];
    FlatSplice(Views(files, lens), lens, |files|, i, pos, data);
    assert Views(files', lens) == Views(files, lens)[i := Splice(Views(files, lens)[i], pos, data)];
  }

  // One more stretch of a longer write, after the first w bytes were written.
  lemma WriteContinues(content: Bytes, content': Bytes, was: Bytes, start: nat, block: Bytes, w: nat, t: nat)
    requires w + t <= |block| && start + |block| <= |was|
    requires content == Splice(was, start, block[..w])
    requires content' == Splice(content, start + w, block[w..w + t])
    ensures content' == Splice(was, start, block[..w + t])
  {
    SpliceTwice(was, start, block, w, t);
  }

  lemma FileAt(files: seq<Bytes>, lens: seq<nat>, i: nat)
    requires Paired(files, lens) && i < |lens|
    ensures i < |files| && (Whole(files, lens) ==> |files[i]| >= lens[i])
  {
  }

  lemma SameCount(files: seq<Bytes>, lens: seq<nat>)
    requires Paired(files, lens)
    ensures |files| == |lens|
  {
  }

  lemma SpliceNothing(s: Bytes, offset: nat)
    requires offset <= |s|
    ensures Splice(s, offset, []) == s
  {
  }

  lemma ViewSlice(content: Bytes, len: nat, a: nat, b: nat)
    requires a <= b <= |content| && b <= len
    ensures View(content, len)[a..b] == content[a..b]
  {
  }

  // Bytes really in a file are the torrent's bytes at the file's place.
  lemma FileRead(files: seq<Bytes>, lens: seq<nat>, i: nat, a: nat, b: nat)
    requires Paired(files, lens) && i < |files| && a <= b <= |files[i]| && b <= lens[i]
    ensures Sum(lens, i) + b <= |ContentOf(files, lens)|
    ensures files[i][a..b] == ContentOf(files, lens)[Sum(lens, i) + a..Sum(lens, i) + b]
  {
    hide Sum, Flat, View;
    FlatSlice(Views(files, lens), lens, |files|, i, a, b);
    ViewSlice(files[i], lens[i], a, b);
  }

  // The same, continuing a longer read of which `done` bytes came before.
  lemma FileReadContinues(files: seq<Bytes>, lens: seq<nat>, i: nat, pos: nat, start: nat, done: nat, t: nat)
    requires Paired(files, lens) && i < |files| && pos + t <= |files[i]| && pos + t <= lens[i]
    requires pos + Sum(lens, i) == start + done
    ensures start + done + t <= |ContentOf(files, lens)|
    ensures ContentOf(files, lens)[start..start + done] + files[i][pos..pos + t] ==
              ContentOf(files, lens)[start..start + done + t]
  {
    hide ContentOf, Sum;
    FileRead(files, lens, i, pos, pos + t);
    JoinSlices(ContentOf(files, lens), start, start + done, start + done + t);
  }

  // File i holds all of its share of the bytes start..end.
  ghost predicate Holds(files: seq<Bytes>, lens: seq<nat>, i: nat, start: nat, end: nat)
    requires |files| == |lens| && i < |lens|
  {
    start < end && Sum(lens, i) < end && start < Sum(lens, i) + lens[i] ==>
      |files[i]| >= if lens[i] <= end - Sum(lens, i) then lens[i] else end - Sum(lens, i)
  }

  ghost predicate AllHold(files: seq<Bytes>, lens: seq<nat>, start: nat, end: nat)
    requires Paired(files, lens)
  {
    forall i: nat :: i < |lens| ==> Holds(files, lens, i, start, end)
  }

  // What is read of one file at once is its share, of which `done` bytes come before in
  // other files.
  lemma HeldIffRead(files: seq<Bytes>, lens: seq<nat>, i: nat, pos: nat, start: nat, end: nat, done: nat, toRead: nat)
    requires |files| == |lens| && i < |lens| && pos <= lens[i]
    requires pos + Sum(lens, i) == start + done <= end && (done == 0 || pos == 0)
    requires toRead == if end - start - done <= lens[i] - pos then end - start - done else lens[i] - pos
    ensures Holds(files, lens, i, start, end) <==> toRead == 0 || pos + toRead <= |files[i]|
  {
    hide Sum;
  }

  lemma WholeFilesHold(files: seq<Bytes>, lens: seq<nat>, start: nat, end: nat)
    requires Whole(files, lens)
    ensures Paired(files, lens) && AllHold(files, lens, start, end)
  {
  }

  lemma NoShare(files: seq<Bytes>, lens: seq<nat>, i: nat, start: nat, end: nat)
    requires |files| == |lens| && i < |lens| && start >= Sum(lens, i) + lens[i]
    ensures Holds(files, lens, i, start, end)
  {
    hide Sum;
  }

  lemma PastTheEnd(files: seq<Bytes>, lens: seq<nat>, i: nat, start: nat, end: nat)
    requires |files| == |lens| && i < |lens|
    requires start == end || end <= Sum(lens, i) + lens[i]
    ensures forall j: nat :: i < j < |lens| ==> Holds(files, lens, j, start, end)
  {
    hide Holds;
    forall j: nat | i < j < |lens| ensures Holds(files, lens, j, start, end) {
      SumMonotone(lens, i + 1, j);
      NoShareYet(files, lens, j, start, end);
    }
  }

  lemma NoShareYet(files: seq<Bytes>, lens: seq<nat>, i: nat, start: nat, end: nat)
    requires |files| == |lens| && i < |lens| && (start == end || end <= Sum(lens, i))
    ensures Holds(files, lens, i, start, end)
  {
    hide Sum;
  }

  class FileOps {
    var files: seq<Bytes>
    const fileLengths: seq<nat>
    const lengths: Lengths
    const pieces: seq<byte>
    const sha1: Bytes -> Digest

    ghost predicate Readable()
      reads this
    {
      Paired(files, fileLengths)
    }

    // Besides, the files together are the torrent.
    ghost predicate Valid()
      reads this
    {
      && Readable()
      && Sum(fileLengths, |fileLengths|) == lengths.totalLength
    }

    ghost function Content(): (c: Bytes)
      requires Readable()
      reads this
      ensures |c| == Sum(fileLengths, |fileLengths|)
    {
      ContentOf(files, fileLengths)
    }

    constructor (files: seq<Bytes>, fileLengths: seq<nat>, lengths: Lengths, pieces: seq<byte>, sha1: Bytes -> Digest)
      ensures this.files == files && this.fileLengths == fileLengths && this.lengths == lengths
      ensures this.pieces == pieces && this.sha1 == sha1
    {
      this.files := files;
      this.fileLengths := fileLengths;
      this.lengths := lengths;
      this.pieces := pieces;
      this.sha1 := sha1;
    }

    // Writing a chunk overwrites exactly the chunk's bytes of the torrent, across file
    // boundaries and empty files.
    method WriteChunk(block: Bytes, chunk: ChunkInfo)
      requires Valid()
      requires ChunkAbsoluteOffset(lengths, chunk) + |block| <= lengths.totalLength
      modifies this
      ensures Valid() && Grown(old(files), files, fileLengths)
      ensures Content() == Splice(old(Content()), ChunkAbsoluteOffset(lengths, chunk), block)
      ensures var start := ChunkAbsoluteOffset(lengths, chunk);
              forall k :: 0 <= k < |Content()| ==>
                Content()[k] == if start <= k < start + |block| then block[k - start] else old(Content())[k]
    {
      WriteAtOffset(ChunkAbsoluteOffset(lengths, chunk), block);
    }

    method WriteAtOffset(start: nat, block: Bytes)
      requires Valid() && start + |block| <= lengths.totalLength
      modifies this
      ensures Valid() && Grown(old(files), files, fileLengths)
      ensures Content() == Splice(old(Content()), start, block)
    {
      hide Paired, Grown, ContentOf, Splice;
      var absoluteOffset: nat := start;
      var buf := block;
      ghost var was, w: nat := Content(), 0;
      ghost var before := files;
      var i: nat := 0;
      SpliceNothing(was, start);
      NothingGrown(files, fileLengths);
      while i < |fileLengths|
        invariant i <= |fileLengths| && w <= |block| && buf == block[w..]
        invariant Valid() && Grown(before, files, fileLengths)
        invariant absoluteOffset + Sum(fileLengths, i) == start + w
        invariant Content() == Splice(was, start, block[..w])
        decreases |fileLengths| - i
      {
        var fileLength := fileLengths[i];
        if absoluteOffset > fileLength {
          absoluteOffset := absoluteOffset - fileLength;
        } else {
          FileAt(files, fileLengths, i);
          ghost var was' := files;
          buf, w := WriteShare(i, absoluteOffset, buf, was, start, block, w);
          GrownTwice(before, was', files, fileLengths);
          if buf == [] { break; }
          absoluteOffset := 0;
        }
        i := i + 1;
      }
      assert block[..|block|] == block;
    }

    // Seeking in one file and writing what fits of the rest of the block, of which w
    // bytes were written before.
    method WriteShare(i: nat, pos: nat, buf: Bytes, ghost was: Bytes, ghost start: nat, ghost block: Bytes,
                      ghost w: nat)
      returns (buf': Bytes, ghost w': nat)
      requires Valid() && i < |files| && pos <= fileLengths[i]
      requires w <= |block| && buf == block[w..]
      requires start + |block| <= |was| && Content() == Splice(was, start, block[..w])
      requires pos + Sum(fileLengths, i) == start + w
      modifies this
      ensures Valid() && Grown(old(files), files, fileLengths)
      ensures w <= w' <= |block| && buf' == block[w'..]
      ensures w' - w == fileLengths[i] - pos || buf' == []
      ensures Content() == Splice(was, start, block[..w'])
    {
      hide Paired, Grown, ContentOf, Splice;
      SameCount(files, fileLengths);
      var rest := fileLengths[i] - pos;
      var toWrite := if |buf| <= rest then |buf| else rest;
      ghost var content := Content();
      assert buf[..toWrite] == block[w..w + toWrite];
      FileWrite(files, fileLengths, i, pos, buf[..toWrite]);
      files := files[i := WriteAt(files[i], pos, buf[..toWrite])];
      WriteContinues(content, Content(), was, start, block, w, toWrite);
      buf', w' := buf[toWrite..], w + toWrite;
    }

    // Reading a chunk into the rest of a buffer, which is the chunk's size, returns exactly the
    // chunk's bytes of the torrent. It fails exactly when that rest is too small, or some file
    // does not hold all of its share of the bytes asked for.
    method ReadChunk(chunk: ChunkInfo, buffer: array<byte>, from: nat) returns (r: Result<(), FileError>)
      requires Valid() && from <= buffer.Length
      modifies buffer
      ensures buffer[..from] == old(buffer[..from])
      ensures r == Err(NoCapacity) <==> buffer.Length - from < chunk.size
      ensures var start, size := ChunkAbsoluteOffset(lengths, chunk), buffer.Length - from;
              && (r.Ok? <==> size >= chunk.size && AllHold(files, fileLengths, start, start + size))
              && (r.Ok? && start + size <= lengths.totalLength ==> buffer[from..] == Content()[start..start + size])
      ensures Whole(files, fileLengths) && buffer.Length - from >= chunk.size ==> r.Ok?
    {
      hide Paired, ContentOf;
      if buffer.Length - from < chunk.size { return Err(NoCapacity); }
      var start := ChunkAbsoluteOffset(lengths, chunk);
      if Whole(files, fileLengths) { WholeFilesHold(files, fileLengths, start, start + buffer.Length - from); }
      r := ReadAtOffset(start, buffer, from);
    }

    method ReadAtOffset(start: nat, buffer: array<byte>, from: nat) returns (r: Result<(), FileError>)
      requires Valid() && from <= buffer.Length
      modifies buffer
      ensures buffer[..from] == old(buffer[..from])
      ensures r.Ok? || r == Err(ReadError)
      ensures var end := start + buffer.Length - from;
              && (r.Ok? <==> AllHold(files, fileLengths, start, end))
              && (r.Ok? && end <= lengths.totalLength ==> buffer[from..] == Content()[start..end])
    {
      hide Paired, ContentOf, Holds;
      ghost var end := start + buffer.Length - from;
      ghost var head := buffer[..from];
      var absoluteOffset: nat := start;
      var done := from;
      var i: nat := 0;
      SameCount(files, fileLengths);
      while i < |fileLengths|
        invariant i <= |fileLengths| && from <= done <= buffer.Length
        invariant absoluteOffset + Sum(fileLengths, i) == start + done - from
        invariant done == from || absoluteOffset == 0
        invariant buffer[..from] == head
        invariant done > from ==>
                    start + done - from <= lengths.totalLength
                      && buffer[from..done] == Content()[start..start + done - from]
        invariant forall j: nat :: j < i ==> Holds(files, fileLengths, j, start, end)
        decreases |fileLengths| - i
      {
        var fileLength := fileLengths[i];
        if absoluteOffset > fileLength {
          NoShare(files, fileLengths, i, start, end);
          absoluteOffset := absoluteOffset - fileLength;
        } else {
          var ok;
          ok, done := ReadShare(i, absoluteOffset, buffer, done, start, from);
          if !ok { return Err(ReadError); }
          if done == buffer.Length {
            PastTheEnd(files, fileLengths, i, start, end);
            break;
          }
          absoluteOffset := 0;
        }
        i := i + 1;
      }
      assert buffer[from..done] == buffer[from..] || done < buffer.Length;
      r := Ok(());
    }

    // Seeking in one file and reading what it has of the rest of the range.
    method ReadShare(i: nat, pos: nat, buffer: array<byte>, done: nat, ghost start: nat, ghost from: nat)
      returns (ok: bool, done': nat)
      requires Valid() && i < |files| && pos <= fileLengths[i]
      requires from <= done <= buffer.Length
      requires pos + Sum(fileLengths, i) == start + done - from
      requires done == from || pos == 0
      requires done > from ==>
                 start + done - from <= lengths.totalLength
                   && buffer[from..done] == Content()[start..start + done - from]
      modifies buffer
      ensures buffer[..from] == old(buffer[..from])
      ensures ok <==> Holds(files, fileLengths, i, start, start + buffer.Length - from)
      ensures ok ==> done <= done' <= buffer.Length && done' - done <= fileLengths[i] - pos
      ensures ok && done' < buffer.Length ==> done' - done == fileLengths[i] - pos
      ensures ok && done' > from ==>
                start + done' - from <= lengths.totalLength
                  && buffer[from..done'] == Content()[start..start + done' - from]
    {
      hide Paired, ContentOf, Whole, Holds, Sum;
      SameCount(files, fileLengths);
      FileAt(files, fileLengths, i);
      var rest := fileLengths[i] - pos;
      var toRead := if buffer.Length - done <= rest then buffer.Length - done else rest;
      HeldIffRead(files, fileLengths, i, pos, start, start + buffer.Length - from, done - from, toRead);
      if toRead > 0 {
        if |files[i]| < pos + toRead { return false, done; }
        ghost var before := buffer[..];
        CopyFrom(buffer, done, files[i][pos..pos + toRead]);
        Copied(before, buffer[..], from, done, files[i][pos..pos + toRead]);
        FileReadContinues(files, fileLengths, i, pos, start, done - from, toRead);
      }
      ok, done' := true, done + toRead;
    }

    // The hasher is fed exactly the piece's bytes, unless a file does not hold all of its
    // share of them. But then the verdict is true: the hash is only compared when the files
    // run out before the piece does, which no piece of a torrent makes them do.
    method CheckPiece(p: u32) returns (r: Result<bool, FileError>, ghost fed: Bytes)
      requires Valid() && L.Valid(lengths) && p <= lengths.lastPieceId
      ensures PieceOffset(lengths, p) + PieceLength(lengths, p) <= lengths.totalLength
      ensures var start, end := PieceOffset(lengths, p), PieceOffset(lengths, p) + PieceLength(lengths, p);
              && r == (if AllHold(files, fileLengths, start, end) then Ok(true) else Err(ReadError))
              && (r.Ok? ==> fed == Content()[start..end])
      ensures Whole(files, fileLengths) ==> r == Ok(true)
    {
      PieceEnds(lengths, p);
      var start := PieceOffset(lengths, p);
      if Whole(files, fileLengths) { WholeFilesHold(files, fileLengths, start, start + PieceLength(lengths, p)); }
      r, fed := HashRange(p, start, PieceLength(lengths, p));
    }

    method HashRange(p: nat, start: nat, pieceLength: nat) returns (r: Result<bool, FileError>, ghost fed: Bytes)
      requires Valid() && 0 < pieceLength && start <= lengths.totalLength
      ensures r == Err(ReadError) <==> !AllHold(files, fileLengths, start, start + pieceLength)
      ensures start + pieceLength <= lengths.totalLength && r != Err(ReadError) ==>
                r == Ok(true) && fed == Content()[start..start + pieceLength]
      ensures start + pieceLength > lengths.totalLength && r != Err(ReadError) ==>
                && fed == Content()[start..]
                && (CompareHash(pieces, p, sha1(fed)).None? ==> r == Err(HashNotFound))
                && (CompareHash(pieces, p, sha1(fed)).Some? ==> r == Ok(CompareHash(pieces, p, sha1(fed)).value))
    {
      hide Paired, ContentOf, Whole, CompareHash, Holds;
      ghost var end := start + pieceLength;
      var h: Bytes := [];
      var absoluteOffset: nat := start;
      var bufferLength := if 65536 <= pieceLength then 65536 else pieceLength;
      var remaining: nat := pieceLength;
      var i: nat := 0;
      SameCount(files, fileLengths);
      while i < |fileLengths|
        invariant i <= |fileLengths| && 0 < remaining <= pieceLength
        invariant absoluteOffset + Sum(fileLengths, i) == end - remaining <= lengths.totalLength
        invariant remaining == pieceLength || absoluteOffset == 0
        invariant h == Content()[start..end - remaining]
        invariant forall j: nat :: j < i ==> Holds(files, fileLengths, j, start, end)
        decreases |fileLengths| - i
      {
        var fileLength := fileLengths[i];
        if absoluteOffset > fileLength {
          NoShare(files, fileLengths, i, start, end);
          absoluteOffset := absoluteOffset - fileLength;
        } else {
          var ok;
          ok, h, remaining := HashShare(i, absoluteOffset, h, bufferLength, remaining, start, pieceLength);
          if !ok { return Err(ReadError), h; }
          if remaining == 0 {
            PastTheEnd(files, fileLengths, i, start, end);
            return Ok(true), h;
          }
          absoluteOffset := 0;
        }
        i := i + 1;
      }
      r, fed := Verdict(CompareHash(pieces, p, sha1(h))), h;
    }

    // Seeking in one file and hashing what it has of the rest of the range.
    method HashShare(i: nat, pos: nat, h: Bytes, bufferLength: nat, remaining: nat,
                     ghost start: nat, ghost pieceLength: nat)
      returns (ok: bool, h': Bytes, remaining': nat)
      requires Valid() && i < |files| && pos <= fileLengths[i] && bufferLength > 0
      requires 0 < remaining <= pieceLength && (remaining == pieceLength || pos == 0)
      requires pos + Sum(fileLengths, i) == start + pieceLength - remaining <= lengths.totalLength
      requires h == Content()[start..start + pieceLength - remaining]
      ensures ok <==> Holds(files, fileLengths, i, start, start + pieceLength)
      ensures ok ==> remaining' <= remaining <= remaining' + fileLengths[i] - pos
      ensures ok && remaining' > 0 ==> remaining == remaining' + fileLengths[i] - pos
      ensures ok ==> start + pieceLength - remaining' <= lengths.totalLength
                     && h' == Content()[start..start + pieceLength - remaining']
    {
      hide Paired, ContentOf, Whole, Holds, Sum, BytesFed;
      SameCount(files, fileLengths);
      FileAt(files, fileLengths, i);
      var rest := fileLengths[i] - pos;
      var toRead := if rest <= remaining then rest else remaining;
      HeldIffRead(files, fileLengths, i, pos, start, start + pieceLength, pieceLength - remaining, toRead);
      ok, h' := UpdateHashFromFile(files[i], pos, h, bufferLength, toRead);
      remaining' := remaining - toRead;
      if toRead == 0 {
        NoneFed(files[i], pos, bufferLength);
      } else if ok {
        AllFed(files[i], pos, toRead, bufferLength);
        FileReadContinues(files, fileLengths, i, pos, start, pieceLength - remaining, toRead);
      }
    }
  }

  function Verdict(same: Option<bool>): Result<bool, FileError> {
    if same.None? then Err(HashNotFound) else Ok(same.value)
  }

  method CopyFrom(buffer: array<byte>, at: nat, data: Bytes)
    requires at + |data| <= buffer.Length
    modifies buffer
    ensures buffer[..at + |data|] == old(buffer[..at]) + data
  {
    var j := 0;
    while j < |data|
      invariant 0 <= j <= |data|
      invariant buffer[..at + j] == old(buffer[..at]) + data[..j]
    {
      buffer[at + j] := data[j];
      j := j + 1;
    }
  }

  lemma Copied(before: Bytes, after: Bytes, from: nat, at: nat, data: Bytes)
    requires from <= at && at + |data| <= |before| == |after|
    requires after[..at + |data|] == before[..at] + data
    ensures after[..from] == before[..from]
    ensures after[from..at + |data|] == before[from..at] + data
  {
    var new' := after[..at + |data|];
    assert new'[..from] == after[..from] && new'[from..] == after[from..at + |data|];
  }

  lemma PieceEnds(l: Lengths, p: u32)
    requires L.Valid(l) && p <= l.lastPieceId
    ensures PieceLength(l, p) > 0
    ensures PieceOffset(l, p) + PieceLength(l, p) <= l.totalLength
  {
    if p < l.lastPieceId {
      Arithmetic.MulStrict(l.pieceLength, p, l.lastPieceId);
      assert p * l.pieceLength == l.pieceLength * p;
      assert l.lastPieceId * l.pieceLength == l.pieceLength * l.lastPieceId;
    }
  }
}
