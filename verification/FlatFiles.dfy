// A list of files seen as one flat byte array.
module FlatFiles {
  import opened Wrappers

  type Bytes = seq<byte>

  // Summed length of the first k files.
  function Sum(lens: seq<nat>, k: nat): nat
    requires k <= |lens|
  {
    if k == 0 then 0 else Sum(lens, k - 1) + lens[k - 1]
  }

  // The first k files laid end to end.
  ghost function Flat(files: seq<Bytes>, k: nat): Bytes
    requires k <= |files|
  {
    if k == 0 then [] else Flat(files, k - 1) + files[k - 1]
  }

  // Overwrites part of a byte string.
  function Splice(s: Bytes, offset: nat, data: Bytes): (r: Bytes)
    requires offset + |data| <= |s|
    ensures |r| == |s|
  {
    s[..offset] + data + s[offset + |data|..]
  }

  ghost predicate HasLengths(files: seq<Bytes>, lens: seq<nat>) {
    |files| == |lens| && forall i :: 0 <= i < |files| ==> |files[i]| == lens[i]
  }

  lemma {:induction false} SumMonotone(lens: seq<nat>, i: nat, k: nat)
    requires i <= k <= |lens|
    ensures Sum(lens, i) <= Sum(lens, k)
    ensures i < k ==> Sum(lens, i) + lens[i] <= Sum(lens, k)
  {
    if i < k { SumMonotone(lens, i, k - 1); }
  }

  lemma {:induction false} FlatLength(files: seq<Bytes>, lens: seq<nat>, k: nat)
    requires HasLengths(files, lens) && k <= |files|
    ensures |Flat(files, k)| == Sum(lens, k)
  {
    if k > 0 { FlatLength(files, lens, k - 1); }
  }

  lemma SliceInFront(x: Bytes, y: Bytes, a: nat, b: nat)
    requires a <= b <= |x|
    ensures (x + y)[a..b] == x[a..b]
  {
  }

  lemma SliceInBack(x: Bytes, y: Bytes, a: nat, b: nat)
    requires a <= b <= |y|
    ensures (x + y)[|x| + a..|x| + b] == y[a..b]
  {
  }

  // The part of the flat array that one file holds.
  lemma {:induction false} FlatSlice(files: seq<Bytes>, lens: seq<nat>, k: nat, i: nat, a: nat, b: nat)
    requires HasLengths(files, lens) && i < k <= |files| && a <= b <= lens[i]
    ensures Sum(lens, i) + b <= |Flat(files, k)|
    ensures Flat(files, k)[Sum(lens, i) + a..Sum(lens, i) + b] == files[i][a..b]
  {
    FlatLength(files, lens, k);
    FlatLength(files, lens, k - 1);
    SumMonotone(lens, i, k);
    var before := Flat(files, k - 1);
    if i < k - 1 {
      FlatSlice(files, lens, k - 1, i, a, b);
      SliceInFront(before, files[k - 1], Sum(lens, i) + a, Sum(lens, i) + b);
    } else {
      SliceInBack(before, files[i], a, b);
    }
  }

  lemma {:induction false} FlatIgnoresLaterFiles(files: seq<Bytes>, i: nat, v: Bytes, k: nat)
    requires k <= i < |files|
    ensures Flat(files[i := v], k) == Flat(files, k)
  {
    if k > 0 {
      FlatIgnoresLaterFiles(files, i, v, k - 1);
      assert files[i := v][k - 1] == files[k - 1];
    }
  }

  lemma SpliceThenAppend(a: Bytes, b: Bytes, offset: nat, data: Bytes)
    requires offset + |data| <= |a|
    ensures Splice(a, offset, data) + b == Splice(a + b, offset, data)
  {
  }

  lemma PrependThenSplice(a: Bytes, b: Bytes, offset: nat, data: Bytes)
    requires offset + |data| <= |b|
    ensures a + Splice(b, offset, data) == Splice(a + b, |a| + offset, data)
  {
  }

  // Overwriting bytes of one file overwrites the same bytes of the flat array.
  lemma {:induction false} FlatSplice(files: seq<Bytes>, lens: seq<nat>, k: nat, i: nat, pos: nat, data: Bytes)
    requires HasLengths(files, lens) && i < k <= |files| && pos + |data| <= lens[i]
    ensures Sum(lens, i) + pos + |data| <= |Flat(files, k)|
    ensures Flat(files[i := Splice(files[i], pos, data)], k) == Splice(Flat(files, k), Sum(lens, i) + pos, data)
  {
    hide Splice, Sum, Flat;
    var files' := files[i := Splice(files[i], pos, data)];
    var before := Flat(files, k - 1);
    FlatStep(files, k);
    FlatStep(files', k);
    FlatLength(files, lens, k - 1);
    if i < k - 1 {
      SumMonotone(lens, i, k - 1);
      FlatSplice(files, lens, k - 1, i, pos, data);
      SpliceThenAppend(before, files[k - 1], Sum(lens, i) + pos, data);
    } else {
      FlatIgnoresLaterFiles(files, i, Splice(files[i], pos, data), i);
      PrependThenSplice(before, files[i], pos, data);
    }
  }

  lemma FlatStep(files: seq<Bytes>, k: nat)
    requires 0 < k <= |files|
    ensures Flat(files, k) == Flat(files, k - 1) + files[k - 1]
  {
  }

  // Two adjacent overwrites are one.
  lemma SpliceTwice(s: Bytes, offset: nat, data: Bytes, w: nat, t: nat)
    requires w + t <= |data| && offset + w + t <= |s|
    ensures Splice(Splice(s, offset, data[..w]), offset + w, data[w..w + t]) == Splice(s, offset, data[..w + t])
  {
    assert data[..w + t] == data[..w] + data[w..w + t];
  }

  // Adjacent slices join.
  lemma JoinSlices(s: Bytes, a: nat, b: nat, c: nat)
    requires a <= b <= c <= |s|
    ensures s[a..b] + s[b..c] == s[a..c]
  {
  }
}
