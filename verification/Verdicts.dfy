// What `initial_check` of file_ops.rs finds out about one piece, as a function of the files
// alone: which files count, what the hasher is fed, and when a missing part is noticed.
//
// The walk through the files remembers between pieces where it is and whether the current
// file broke. None of that is in these definitions.
module Verdicts {
  import opened Wrappers
  import opened FlatFiles
  import FO = FileOps

  const READ_BUFFER_SIZE: nat := 65536

  function FullFileRequired(onlyFiles: Option<seq<nat>>, index: nat): bool {
    onlyFiles.None? || index in onlyFiles.value
  }

  // File f's bytes or its ends meet start..end, but not just its start at the range's end.
  ghost predicate Meets(lens: seq<nat>, f: nat, start: nat, end: nat) {
    f < |lens| && Sum(lens, f) < end && start <= Sum(lens, f) + lens[f]
  }

  // The piece counts as selected when it meets a required file, if only an empty one, or
  // one that ends where the piece starts.
  ghost predicate Selected(lens: seq<nat>, onlyFiles: Option<seq<nat>>, start: nat, end: nat) {
    exists f :: Meets(lens, f, start, end) && FullFileRequired(onlyFiles, f)
  }

  // The first byte that file f lacks is one of start..end.
  ghost predicate FirstMissingIn(files: seq<Bytes>, lens: seq<nat>, f: nat, start: nat, end: nat)
    requires FO.Paired(files, lens)
  {
    f < |lens| && |files[f]| < lens[f] && start <= Sum(lens, f) + |files[f]| < end
  }

  // Reading the piece fails in some file.
  ghost predicate SomeBreaks(files: seq<Bytes>, lens: seq<nat>, start: nat, end: nat)
    requires FO.Paired(files, lens)
  {
    exists f :: FirstMissingIn(files, lens, f, start, end)
  }

  // What file f feeds to the hasher of start..end: its share of the range, or, when it lacks
  // a part of that, the whole read buffers before the missing part.
  ghost function ShareFed(files: seq<Bytes>, lens: seq<nat>, f: nat, start: nat, end: nat): Bytes
    requires FO.Paired(files, lens) && f < |lens|
  {
    var at := Sum(lens, f);
    if start < end && at < end && start < at + lens[f] then
      var from := if start <= at then 0 else start - at;
      var to := if at + lens[f] <= end then lens[f] else end - at;
      FO.BytesFed(files[f], from, to - from, READ_BUFFER_SIZE)
    else []
  }

  // What the first k files feed to it.
  ghost function Fed(files: seq<Bytes>, lens: seq<nat>, k: nat, start: nat, end: nat): Bytes
    requires FO.Paired(files, lens) && k <= |lens|
  {
    if k == 0 then [] else Fed(files, lens, k - 1, start, end) + ShareFed(files, lens, k - 1, start, end)
  }

  datatype Verdict = Verdict(needed: bool, have: bool, selected: bool)

  // None when the hash string has no digest for the piece and it is looked at.
  ghost function PieceVerdict(files: seq<Bytes>, lens: seq<nat>, onlyFiles: Option<seq<nat>>, pieces: seq<byte>,
                              sha1: Bytes -> FO.Digest, p: nat, start: nat, end: nat): Option<Verdict>
    requires FO.Paired(files, lens)
  {
    var selected := Selected(lens, onlyFiles, start, end);
    if selected && SomeBreaks(files, lens, start, end) then Some(Verdict(true, false, true))
    else
      match FO.CompareHash(pieces, p, sha1(Fed(files, lens, |lens|, start, end)))
      case None => None
      case Some(same) => Some(Verdict(selected && !same, same, selected))
  }

  // ---- the files in a range -------------------------------------------------------------

  // Every byte of the torrent is in a file.
  lemma {:induction false} FileOfByte(lens: seq<nat>, k: nat, place: nat) returns (f: nat)
    requires k <= |lens| && place < Sum(lens, k)
    ensures f < k && Sum(lens, f) <= place < Sum(lens, f) + lens[f]
  {
    if Sum(lens, k - 1) <= place {
      f := k - 1;
    } else {
      f := FileOfByte(lens, k - 1, place);
    }
  }

  // A range in the torrent meets a file; so without a filter every piece is selected.
  lemma NoFilterSelects(lens: seq<nat>, start: nat, end: nat)
    requires start < end <= Sum(lens, |lens|)
    ensures Selected(lens, None, start, end)
  {
    var f := FileOfByte(lens, |lens|, start);
    assert Meets(lens, f, start, end) && FullFileRequired(None, f);
  }

  // With a filter exactly the pieces that meet a listed file are selected.
  lemma ListedFilesSelect(lens: seq<nat>, listed: seq<nat>, start: nat, end: nat)
    ensures Selected(lens, Some(listed), start, end) <==>
            exists f :: f in listed && f < |lens| && Sum(lens, f) < end && start <= Sum(lens, f) + lens[f]
  {
    hide Sum;
    forall f: nat
      ensures Meets(lens, f, start, end) && FullFileRequired(Some(listed), f) <==>
              f in listed && f < |lens| && Sum(lens, f) < end && start <= Sum(lens, f) + lens[f]
    {
    }
  }

  // So a piece that holds a byte of a listed file is selected, and needed unless it is had; a
  // piece that meets no listed file is never needed; and none is both needed and had.
  lemma NeededWhenListed(files: seq<Bytes>, lens: seq<nat>, listed: seq<nat>, pieces: seq<byte>,
                         sha1: Bytes -> FO.Digest, p: nat, start: nat, end: nat, v: Verdict)
    requires FO.Paired(files, lens) && start < end <= Sum(lens, |lens|)
    requires PieceVerdict(files, lens, Some(listed), pieces, sha1, p, start, end) == Some(v)
    ensures (exists f :: f in listed && f < |lens| && Max(start, Sum(lens, f)) < Min(end, Sum(lens, f) + lens[f])) ==>
              v.selected && v.needed == !v.have
    ensures (forall f :: f in listed && f < |lens| ==> Sum(lens, f) + lens[f] < start || end <= Sum(lens, f)) ==>
              !v.selected && !v.needed
    ensures !(v.needed && v.have)
  {
    hide Sum, Selected, SomeBreaks, FO.CompareHash, Fed;
    ListedFilesSelect(lens, listed, start, end);
  }

  lemma {:induction false} NothingFedBetween(files: seq<Bytes>, lens: seq<nat>, i: nat, k: nat, start: nat, end: nat)
    requires FO.Paired(files, lens) && i <= k <= |lens|
    requires forall f :: i <= f < k ==> ShareFed(files, lens, f, start, end) == []
    ensures Fed(files, lens, k, start, end) == Fed(files, lens, i, start, end)
  {
    hide ShareFed, Sum;
    if i < k { NothingFedBetween(files, lens, i, k - 1, start, end); }
  }

  // Files before the range and after it feed nothing to it.
  lemma FedByRange(files: seq<Bytes>, lens: seq<nat>, i: nat, k: nat, start: nat, end: nat)
    requires FO.Paired(files, lens) && i <= k <= |lens|
    requires Sum(lens, k) <= start || end <= Sum(lens, i)
    ensures Fed(files, lens, k, start, end) == Fed(files, lens, i, start, end)
  {
    forall f | i <= f < k ensures ShareFed(files, lens, f, start, end) == [] {
      SumMonotone(lens, i, f);
      SumMonotone(lens, f, k);
    }
    NothingFedBetween(files, lens, i, k, start, end);
  }

  // ---- pieces whose bytes the files hold ------------------------------------------------

  lemma HeldShare(files: seq<Bytes>, lens: seq<nat>, f: nat, start: nat, end: nat, from: nat, to: nat)
    requires FO.Paired(files, lens) && f < |lens| && FO.Holds(files, lens, f, start, end)
    requires start < end && from == Max(start, Sum(lens, f)) < to == Min(end, Sum(lens, f) + lens[f])
    ensures to <= |FO.ContentOf(files, lens)|
    ensures ShareFed(files, lens, f, start, end) == FO.ContentOf(files, lens)[from..to]
  {
    hide FO.ContentOf, FO.BytesFed, Sum;
    var at := Sum(lens, f);
    FO.FileRead(files, lens, f, from - at, to - at);
    FO.AllFed(files[f], from - at, to - from, READ_BUFFER_SIZE);
  }

  function Max(a: nat, b: nat): nat { if a <= b then b else a }
  function Min(a: nat, b: nat): nat { if a <= b then a else b }

  // The first k files feed the part of the range that they cover.
  lemma {:induction false} HeldPrefix(files: seq<Bytes>, lens: seq<nat>, k: nat, start: nat, end: nat)
    requires FO.Paired(files, lens) && FO.AllHold(files, lens, start, end)
    requires k <= |lens| && start <= end <= Sum(lens, |lens|)
    ensures Sum(lens, |lens|) == |FO.ContentOf(files, lens)|
    ensures var to := Max(start, Min(end, Sum(lens, k)));
            Fed(files, lens, k, start, end) == FO.ContentOf(files, lens)[start..to]
  {
    hide FO.ContentOf, FO.Holds, ShareFed;
    if k > 0 {
      HeldPrefix(files, lens, k - 1, start, end);
      var from, to := Max(start, Sum(lens, k - 1)), Min(end, Sum(lens, k));
      if start < end && from < to {
        assert FO.Holds(files, lens, k - 1, start, end);
        HeldShare(files, lens, k - 1, start, end, from, to);
        JoinSlices(FO.ContentOf(files, lens), start, from, to);
      } else {
        NoShareFed(files, lens, k - 1, start, end);
      }
    }
  }

  lemma NoShareFed(files: seq<Bytes>, lens: seq<nat>, f: nat, start: nat, end: nat)
    requires FO.Paired(files, lens) && f < |lens|
    requires start >= end || Max(start, Sum(lens, f)) >= Min(end, Sum(lens, f) + lens[f])
    ensures ShareFed(files, lens, f, start, end) == []
  {
    hide Sum;
  }

  // When the files hold a range, the hasher is fed exactly that part of the torrent and no
  // file breaks in it.
  lemma HeldIsFed(files: seq<Bytes>, lens: seq<nat>, start: nat, end: nat)
    requires FO.Paired(files, lens) && FO.AllHold(files, lens, start, end)
    requires start <= end <= Sum(lens, |lens|)
    ensures end <= |FO.ContentOf(files, lens)|
    ensures Fed(files, lens, |lens|, start, end) == FO.ContentOf(files, lens)[start..end]
    ensures !SomeBreaks(files, lens, start, end)
  {
    HeldPrefix(files, lens, |lens|, start, end);
    forall f: nat | f < |lens| ensures !FirstMissingIn(files, lens, f, start, end) {
      assert FO.Holds(files, lens, f, start, end);
    }
  }

  // ---- when `have` is right -------------------------------------------------------------

  // The verdict puts the piece in `have` exactly when the files hold it and its digest is
  // the one in the hash string.
  ghost predicate HaveIsRight(files: seq<Bytes>, lens: seq<nat>, onlyFiles: Option<seq<nat>>, pieces: seq<byte>,
                              sha1: Bytes -> FO.Digest, p: nat, start: nat, end: nat)
    requires FO.Paired(files, lens) && start <= end <= Sum(lens, |lens|)
  {
    var v := PieceVerdict(files, lens, onlyFiles, pieces, sha1, p, start, end);
    v.Some? ==>
      (v.value.have <==>
       && FO.AllHold(files, lens, start, end)
       && FO.CompareHash(pieces, p, sha1(FO.ContentOf(files, lens)[start..end])) == Some(true))
  }

  // A hash string that has one digest at place p.
  function OnlyDigest(p: nat, digest: FO.Digest): (pieces: seq<byte>)
    ensures FO.CompareHash(pieces, p, digest) == Some(true)
  {
    FO.Zeros(p * 20) + digest
  }

  // It is right for every hash string if and only if the files hold the piece, or the piece
  // is selected and some file's first missing byte lies in it. A piece that a file broke
  // before, or that is not selected, is had whenever the digest of what was read of it is
  // the one expected.
  lemma HaveIsRightIff(files: seq<Bytes>, lens: seq<nat>, onlyFiles: Option<seq<nat>>, sha1: Bytes -> FO.Digest,
                       p: nat, start: nat, end: nat)
    requires FO.Paired(files, lens) && start <= end <= Sum(lens, |lens|)
    ensures (forall pieces :: HaveIsRight(files, lens, onlyFiles, pieces, sha1, p, start, end)) <==>
            || FO.AllHold(files, lens, start, end)
            || (Selected(lens, onlyFiles, start, end) && SomeBreaks(files, lens, start, end))
  {
    hide FO.AllHold, Selected, SomeBreaks, FO.CompareHash, FO.ContentOf, Fed;
    if FO.AllHold(files, lens, start, end) {
      HeldIsFed(files, lens, start, end);
    }
    var digest := sha1(Fed(files, lens, |lens|, start, end));
    assert FO.CompareHash(OnlyDigest(p, digest), p, digest) == Some(true);
    if !FO.AllHold(files, lens, start, end)
       && !(Selected(lens, onlyFiles, start, end) && SomeBreaks(files, lens, start, end))
    {
      assert !HaveIsRight(files, lens, onlyFiles, OnlyDigest(p, digest), sha1, p, start, end);
    }
  }

  // A missing file of two pieces: the first piece is found missing, the second is had when
  // its digest in the hash string is that of no bytes at all.
  lemma HadWithoutItsBytes(sha1: Bytes -> FO.Digest)
    ensures var pieces := OnlyDigest(1, sha1([]));
            && FO.Paired([[]], [32768]) && !FO.AllHold([[]], [32768], 16384, 32768)
            && PieceVerdict([[]], [32768], None, pieces, sha1, 0, 0, 16384) == Some(Verdict(true, false, true))
            && PieceVerdict([[]], [32768], None, pieces, sha1, 1, 16384, 32768) == Some(Verdict(false, true, true))
  {
    var files: seq<Bytes>, lens: seq<nat> := [[]], [32768];
    assert Sum(lens, 1) == 32768 && Sum(lens, 0) == 0;
    NoFilterSelects(lens, 0, 16384);
    NoFilterSelects(lens, 16384, 32768);
    assert FirstMissingIn(files, lens, 0, 0, 16384);
    assert !FO.Holds(files, lens, 0, 16384, 32768);
    assert Fed(files, lens, 0, 16384, 32768) == [] == ShareFed(files, lens, 0, 16384, 32768);
    assert Fed(files, lens, 1, 16384, 32768) == [];
  }
}
