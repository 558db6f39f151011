// hash_id.rs: fixed-width identifiers as byte strings, read as big-endian numbers, and
// the two bit-level helpers of the routing table that work on them.
//
// Bit masks are written arithmetically: bit j of n is the parity of n shifted right j
// times, and setting or clearing it adds or takes away 2^j.
module HashId {
  import opened Wrappers

  type Id = seq<byte>

  type Id20 = s: seq<byte> | |s| == 20 witness seq(20, i => 0)

  // ---------------------------------------------------------------- numbers and their bits

  function Pow2(k: nat): (p: nat)
    ensures p > 0
  {
    if k == 0 then 1 else 2 * Pow2(k - 1)
  }

  function Shr(n: nat, k: nat): nat {
    if k == 0 then n else Shr(n / 2, k - 1)
  }

  function Shl(n: nat, k: nat): nat {
    if k == 0 then n else 2 * Shl(n, k - 1)
  }

  function BitOf(n: nat, k: nat): bool { Shr(n, k) % 2 == 1 }

  function Xor(a: nat, b: nat): nat {
    if a == 0 && b == 0 then 0
    else 2 * Xor(a / 2, b / 2) + (if a % 2 != b % 2 then 1 else 0)
  }

  // The lowest k bits are clear.
  predicate Aligned(n: nat, k: nat) {
    k == 0 || (n % 2 == 0 && Aligned(n / 2, k - 1))
  }

  lemma {:induction false} ShrStep(n: nat, k: nat)
    ensures Shr(n, k + 1) == Shr(n, k) / 2
  {
    if k > 0 { ShrStep(n / 2, k - 1); }
  }

  lemma {:induction false} ShrAddPow(n: nat, k: nat)
    ensures Shr(n + Pow2(k), k) == Shr(n, k) + 1
  {
    if k > 0 {
      assert (n + Pow2(k)) / 2 == n / 2 + Pow2(k - 1);
      ShrAddPow(n / 2, k - 1);
    }
  }

  lemma {:induction false} ShrFrom(n: nat, k: nat, j: nat)
    requires k <= j
    ensures Shr(n, j) == Shr(Shr(n, k), j - k)
  {
    if k > 0 { ShrFrom(n / 2, k - 1, j - 1); }
  }

  // A clear bit of an n below 2^w leaves room for it; a set bit can be taken away.
  lemma {:induction false} BitLeavesRoom(n: nat, w: nat, k: nat)
    requires n < Pow2(w) && k < w
    ensures !BitOf(n, k) ==> n + Pow2(k) < Pow2(w)
    ensures BitOf(n, k) ==> Pow2(k) <= n
  {
    if k > 0 { BitLeavesRoom(n / 2, w - 1, k - 1); }
  }

  // Adding a clear bit's weight sets that bit and leaves the others.
  lemma {:induction false} AddedBit(n: nat, k: nat, j: nat)
    requires !BitOf(n, k)
    ensures BitOf(n + Pow2(k), j) == (j == k || BitOf(n, j))
  {
    if k > 0 {
      assert (n + Pow2(k)) / 2 == n / 2 + Pow2(k - 1);
      if j > 0 { AddedBit(n / 2, k - 1, j - 1); }
    }
  }

  // The numbers that agree with an aligned `lo` above bit k are the 2^k numbers from lo on.
  lemma {:induction false} AlignedRange(lo: nat, k: nat, n: nat)
    requires Aligned(lo, k)
    ensures lo <= n < lo + Pow2(k) <==> Shr(n, k) == Shr(lo, k)
  {
    if k > 0 { AlignedRange(lo / 2, k - 1, n / 2); }
  }

  // An aligned range falls into two aligned halves.
  lemma {:induction false} AlignedHalves(lo: nat, k: nat)
    requires k > 0 && Aligned(lo, k)
    ensures Aligned(lo, k - 1) && Aligned(lo + Pow2(k - 1), k - 1) && !BitOf(lo, k - 1)
  {
    if k > 1 {
      AlignedHalves(lo / 2, k - 1);
      assert (lo + Pow2(k - 1)) / 2 == lo / 2 + Pow2(k - 2);
    }
  }

  lemma {:induction false} XorZero(a: nat, b: nat)
    ensures Xor(a, b) == 0 <==> a == b
  {
    if a != 0 || b != 0 { XorZero(a / 2, b / 2); }
  }

  lemma {:induction false} XorSymmetric(a: nat, b: nat)
    ensures Xor(a, b) == Xor(b, a)
  {
    if a != 0 || b != 0 { XorSymmetric(a / 2, b / 2); }
  }

  lemma {:induction false} XorShr(a: nat, b: nat, k: nat)
    ensures Shr(Xor(a, b), k) == Xor(Shr(a, k), Shr(b, k))
  {
    if k > 0 { XorShr(a / 2, b / 2, k - 1); }
  }

  lemma {:induction false} XorBelow(a: nat, b: nat, w: nat)
    requires a < Pow2(w) && b < Pow2(w)
    ensures Xor(a, b) < Pow2(w)
  {
    if w > 0 { XorBelow(a / 2, b / 2, w - 1); }
  }

  lemma {:induction false} XorJoin(x: nat, y: nat, a: nat, b: nat, w: nat)
    requires a < Pow2(w) && b < Pow2(w)
    ensures Xor(Shl(x, w) + a, Shl(y, w) + b) == Shl(Xor(x, y), w) + Xor(a, b)
  {
    if w > 0 {
      assert (Shl(x, w) + a) / 2 == Shl(x, w - 1) + a / 2;
      assert (Shl(y, w) + b) / 2 == Shl(y, w - 1) + b / 2;
      XorJoin(x, y, a / 2, b / 2, w - 1);
    }
  }

  lemma {:induction false} SmallShr(n: nat, k: nat)
    ensures Shr(n, k) == 0 <==> n < Pow2(k)
  {
    if k > 0 { SmallShr(n / 2, k - 1); }
  }

  // Any number in an aligned range is XOR-closer to any other in it than one outside is.
  lemma InsideIsCloser(lo: nat, k: nat, target: nat, inside: nat, outside: nat)
    requires Aligned(lo, k)
    requires lo <= target < lo + Pow2(k) && lo <= inside < lo + Pow2(k) && !(lo <= outside < lo + Pow2(k))
    ensures Xor(target, inside) < Pow2(k) <= Xor(target, outside)
  {
    AlignedRange(lo, k, target);
    AlignedRange(lo, k, inside);
    AlignedRange(lo, k, outside);
    XorShr(target, inside, k);
    XorShr(target, outside, k);
    XorZero(Shr(target, k), Shr(inside, k));
    XorZero(Shr(target, k), Shr(outside, k));
    SmallShr(Xor(target, inside), k);
    SmallShr(Xor(target, outside), k);
  }

  // ---------------------------------------------------------------- ids

  function Num(id: Id): nat {
    if id == [] then 0 else 256 * Num(id[..|id| - 1]) + id[|id| - 1]
  }

  lemma BytePowers(k: nat)
    ensures Pow2(k + 8) == 256 * Pow2(k)
    ensures Pow2(8) == 256
  {
    assert Pow2(k + 4) == 2 * Pow2(k + 3) == 4 * Pow2(k + 2) == 8 * Pow2(k + 1) == 16 * Pow2(k);
    assert Pow2(k + 8) == 2 * Pow2(k + 7) == 4 * Pow2(k + 6) == 8 * Pow2(k + 5) == 16 * Pow2(k + 4);
    assert Pow2(4) == 16;
  }

  // Bytes of ones after a number.
  lemma {:induction false} OnesAfter(prefix: Id, n: nat)
    ensures Num(prefix + seq(n, i => 255)) + 1 == (Num(prefix) + 1) * Pow2(8 * n)
  {
    if n == 0 {
      assert prefix + seq(n, i => 255) == prefix;
    } else {
      OnesAfter(prefix, n - 1);
      assert (prefix + seq(n, i => 255))[..|prefix| + n - 1] == prefix + seq(n - 1, i => 255);
      BytePowers(8 * n - 8);
      Regroup(256, Num(prefix) + 1, Pow2(8 * n - 8));
    }
  }

  lemma Regroup(a: nat, b: nat, c: nat)
    ensures a * (b * c) == b * (a * c)
  {
  }

  lemma {:induction false} NumFits(id: Id)
    ensures Num(id) < Pow2(8 * |id|)
  {
    if id != [] {
      NumFits(id[..|id| - 1]);
      BytePowers(8 * |id| - 8);
    }
  }

  lemma ShiftByte(m: nat, b: byte)
    ensures Shl(m, 8) == 256 * m
    ensures Shr(256 * m + b, 8) == m
  {
    assert Shl(m, 4) == 2 * Shl(m, 3) == 4 * Shl(m, 2) == 8 * Shl(m, 1) == 16 * m;
    assert Shl(m, 8) == 2 * Shl(m, 7) == 4 * Shl(m, 6) == 8 * Shl(m, 5) == 16 * Shl(m, 4);
    var n := 256 * m + b;
    assert Shr(n, 8) == Shr(n / 2, 7) == Shr(n / 2 / 2, 6) == Shr(n / 2 / 2 / 2, 5) == Shr(n / 2 / 2 / 2 / 2, 4);
    assert n / 2 / 2 / 2 / 2 == 16 * m + b / 2 / 2 / 2 / 2;
    var h := n / 2 / 2 / 2 / 2;
    assert Shr(h, 4) == Shr(h / 2, 3) == Shr(h / 2 / 2, 2) == Shr(h / 2 / 2 / 2, 1) == h / 2 / 2 / 2 / 2;
  }

  // The low bits of a number ending in byte b are b's.
  lemma {:induction false} LowBits(m: nat, b: nat, j: nat, w: nat)
    requires j < w
    ensures BitOf(Shl(m, w) + b, j) == BitOf(b, j)
  {
    assert (Shl(m, w) + b) / 2 == Shl(m, w - 1) + b / 2;
    if j > 0 { LowBits(m, b / 2, j - 1, w - 1); }
  }

  // `get_bit`.
  function GetBit(id: Id, bit: nat): bool
    requires bit < 8 * |id|
  {
    BitOf(id[bit / 8], 7 - bit % 8)
  }

  // Bit i of an id, counted from its first byte's highest, is bit 8N-1-i of its number.
  lemma {:induction false} BitOfNum(id: Id, bit: nat)
    requires bit < 8 * |id|
    ensures GetBit(id, bit) == BitOf(Num(id), 8 * |id| - 1 - bit)
  {
    var k := |id| - 1;
    var m, b := Num(id[..k]), id[k];
    ShiftByte(m, b);
    if bit / 8 == k {
      LowBits(m, b, 7 - bit % 8, 8);
    } else {
      BitOfNum(id[..k], bit);
      ShrFrom(Num(id), 8, 8 * |id| - 1 - bit);
    }
  }

  // An id with one bit set or cleared.
  function WithBit(id: Id, bit: nat, value: bool): (r: Id)
    requires bit < 8 * |id|
    ensures |r| == |id|
  {
    id[bit / 8 := WithByteBit(id[bit / 8], 7 - bit % 8, value)]
  }

  function WithByteBit(n: byte, k: nat, value: bool): byte
    requires k < 8
  {
    BytePowers(0);
    BitLeavesRoom(n, 8, k);
    if BitOf(n, k) == value then n
    else if value then n + Pow2(k)
    else n - Pow2(k)
  }

  lemma ByteBits(n: byte, k: nat, value: bool, j: nat)
    requires k < 8
    ensures BitOf(WithByteBit(n, k, value), j) == if j == k then value else BitOf(n, j)
  {
    BytePowers(0);
    BitLeavesRoom(n, 8, k);
    if BitOf(n, k) != value {
      if value {
        AddedBit(n, k, j);
      } else {
        ShrAddPow(n - Pow2(k), k);
        AddedBit(n - Pow2(k), k, j);
      }
    }
  }

  // Reading a bit after a write: the written one, or what was there.
  lemma BitAfterWrite(id: Id, bit: nat, value: bool, j: nat)
    requires bit < 8 * |id| && j < 8 * |id|
    ensures GetBit(WithBit(id, bit, value), j) == if j == bit then value else GetBit(id, j)
  {
    if j / 8 == bit / 8 { ByteBits(id[bit / 8], 7 - bit % 8, value, 7 - j % 8); }
  }

  // Setting a clear bit adds its weight to the number, clearing a set one takes it away.
  lemma {:induction false} NumWithBit(id: Id, bit: nat, value: bool)
    requires bit < 8 * |id|
    ensures Num(WithBit(id, bit, value)) ==
            if GetBit(id, bit) == value then Num(id)
            else if value then Num(id) + Pow2(8 * |id| - 1 - bit)
            else Num(id) - Pow2(8 * |id| - 1 - bit)
    ensures !value && GetBit(id, bit) ==> Pow2(8 * |id| - 1 - bit) <= Num(id)
  {
    var k := |id| - 1;
    var changed := WithBit(id, bit, value);
    if bit / 8 == k {
      assert changed[..k] == id[..k];
      BytePowers(0);
      BitLeavesRoom(id[k], 8, 7 - bit % 8);
    } else {
      assert changed[..k] == WithBit(id[..k], bit, value) && changed[k] == id[k];
      NumWithBit(id[..k], bit, value);
      BytePowers(8 * k - 1 - bit);
    }
  }

  // `set_bit`, in place.
  method SetBit(id: array<byte>, bit: nat, value: bool)
    requires bit < 8 * id.Length
    modifies id
    ensures id[..] == WithBit(old(id[..]), bit, value)
    ensures forall j: nat :: j < 8 * id.Length ==>
              GetBit(id[..], j) == if j == bit then value else GetBit(old(id[..]), j)
  {
    ghost var before := id[..];
    id[bit / 8] := WithByteBit(id[bit / 8], 7 - bit % 8, value);
    assert id[..] == WithBit(before, bit, value);
    forall j: nat | j < 8 * id.Length
      ensures GetBit(id[..], j) == if j == bit then value else GetBit(before, j)
    {
      BitAfterWrite(before, bit, value, j);
    }
  }

  datatype Ordering = Less | Equal | Greater

  // The byte-wise comparison is the comparison of the numbers.
  method Cmp(a: Id, b: Id) returns (r: Ordering)
    requires |a| == |b|
    ensures r == Less <==> Num(a) < Num(b)
    ensures r == Equal <==> Num(a) == Num(b)
    ensures r == Equal <==> a == b
  {
    var i := 0;
    while i < |a|
      invariant 0 <= i <= |a| && a[..i] == b[..i]
    {
      if a[i] < b[i] { FirstDifference(a, b, i); return Less; }
      if a[i] > b[i] { FirstDifference(b, a, i); return Greater; }
      i := i + 1;
    }
    assert a == a[..i] && b == b[..i];
    r := Equal;
  }

  lemma {:induction false} FirstDifference(a: Id, b: Id, i: nat)
    requires |a| == |b| && i < |a| && a[..i] == b[..i] && a[i] < b[i]
    ensures Num(a) < Num(b)
  {
    var k := |a| - 1;
    if i < k {
      assert a[..k][..i] == a[..i] && b[..k][..i] == b[..i];
      FirstDifference(a[..k], b[..k], i);
    }
  }

  // Different ids of one width are different numbers.
  lemma {:induction false} NumInjective(a: Id, b: Id)
    requires |a| == |b| && Num(a) == Num(b)
    ensures a == b
  {
    if a != b {
      var i := CommonPrefix(a, b);
      if a[i] < b[i] { FirstDifference(a, b, i); } else { FirstDifference(b, a, i); }
    }
  }

  function CommonPrefix(a: Id, b: Id): (i: nat)
    requires |a| == |b| && a != b
    ensures i < |a| && a[..i] == b[..i] && a[i] != b[i]
  {
    if a[0] != b[0] then 0
    else
      var j := CommonPrefix(a[1..], b[1..]);
      assert a[..j + 1] == [a[0]] + a[1..][..j] && b[..j + 1] == [b[0]] + b[1..][..j];
      j + 1
  }

  function ByteXor(a: byte, b: byte): byte {
    BytePowers(0);
    XorBelow(a, b, 8);
    Xor(a, b)
  }

  function Distance(a: Id, b: Id): (r: Id)
    requires |a| == |b|
    ensures |r| == |a|
  {
    seq(|a|, i requires 0 <= i < |a| => ByteXor(a[i], b[i]))
  }

  // The distance of two ids is the exclusive or of their numbers.
  lemma {:induction false} NumDistance(a: Id, b: Id)
    requires |a| == |b|
    ensures Num(Distance(a, b)) == Xor(Num(a), Num(b))
  {
    if a != [] {
      var k := |a| - 1;
      assert Distance(a, b)[..k] == Distance(a[..k], b[..k]);
      NumDistance(a[..k], b[..k]);
      BytePowers(0);
      XorJoin(Num(a[..k]), Num(b[..k]), a[k], b[k], 8);
      ShiftByte(Num(a[..k]), a[k]);
      ShiftByte(Num(b[..k]), b[k]);
      ShiftByte(Xor(Num(a[..k]), Num(b[..k])), ByteXor(a[k], b[k]));
    }
  }

  // `distance` fills a fresh array byte by byte.
  method FillDistance(a: Id, b: Id) returns (r: Id)
    requires |a| == |b|
    ensures |r| == |a| && Num(r) == Xor(Num(a), Num(b))
  {
    var xor := new byte[|a|];
    var i := 0;
    while i < |a|
      invariant 0 <= i <= |a| && forall j :: 0 <= j < i ==> xor[j] == ByteXor(a[j], b[j])
    {
      xor[i] := ByteXor(a[i], b[i]);
      i := i + 1;
    }
    r := xor[..];
    assert r == Distance(a, b);
    NumDistance(a, b);
  }

  // ---------------------------------------------------------------- bucket ranges

  // The ids from `start` to `end` share everything but their last `bits` bits.
  predicate IsRange(start: Id20, end: Id20, bits: nat) {
    && bits <= 160
    && Aligned(Num(start), bits)
    && Num(end) == Num(start) + Pow2(bits) - 1
  }

  predicate InRange(start: Id20, end: Id20, id: Id20) { Num(start) <= Num(id) <= Num(end) }

  // In a range, an id is XOR-closer to a target of the range than any id outside it.
  lemma RangeMembersAreCloser(start: Id20, end: Id20, bits: nat, target: Id20, inside: Id20, outside: Id20)
    requires IsRange(start, end, bits)
    requires InRange(start, end, target) && InRange(start, end, inside) && !InRange(start, end, outside)
    ensures Num(Distance(target, inside)) < Pow2(bits) <= Num(Distance(target, outside))
  {
    InsideIsCloser(Num(start), bits, Num(target), Num(inside), Num(outside));
    NumDistance(target, inside);
    NumDistance(target, outside);
  }

  // `compute_split_start_end` cuts a range into its two halves; with two bits or more the
  // three inequalities the source asserts hold.
  function ComputeSplitStartEnd(start: Id20, end: Id20, bits: nat): (r: (Id20, Id20))
    requires 0 < bits <= 160
  {
    var changingBit := 160 - bits;
    (WithBit(end, changingBit, false), WithBit(start, changingBit, true))
  }

  lemma HalvesOfNumbers(lo: nat, hi: nat, bits: nat)
    requires 0 < bits && Aligned(lo, bits) && hi == lo + Pow2(bits) - 1
    ensures !BitOf(lo, bits - 1) && BitOf(hi, bits - 1)
    ensures Aligned(lo, bits - 1) && Aligned(lo + Pow2(bits - 1), bits - 1)
    ensures hi == lo + 2 * Pow2(bits - 1) - 1
    ensures bits >= 2 ==> Pow2(bits - 1) >= 2
  {
    assert Pow2(bits) == 2 * Pow2(bits - 1) && (bits >= 2 ==> Pow2(bits - 1) == 2 * Pow2(bits - 2));
    hide Pow2, Shr, Aligned;
    AlignedHalves(lo, bits);
    AlignedRange(lo + Pow2(bits - 1), bits - 1, hi);
    ShrAddPow(lo, bits - 1);
  }

  lemma SplitIsHalves(start: Id20, end: Id20, bits: nat)
    requires 0 < bits <= 160 && IsRange(start, end, bits)
    ensures var (leftEnd, rightStart) := ComputeSplitStartEnd(start, end, bits);
            && IsRange(start, leftEnd, bits - 1) && IsRange(rightStart, end, bits - 1)
            && Num(leftEnd) + 1 == Num(rightStart)
            && (bits >= 2 ==> Num(start) < Num(leftEnd) < Num(rightStart) < Num(end))
  {
    hide Num, Pow2, BitOf, Aligned, GetBit, WithBit;
    HalvesOfNumbers(Num(start), Num(end), bits);
    BitOfNum(start, 160 - bits);
    BitOfNum(end, 160 - bits);
    NumWithBit(end, 160 - bits, false);
    NumWithBit(start, 160 - bits, true);
  }

  // `generate_random_id` overwrites the leading bits of random bytes with the bucket's,
  // and so lands in the bucket whatever the bytes are. The other bits stay random.
  method GenerateRandomId(start: Id20, bits: nat, randomBytes: Id20, ghost end: Id20) returns (id: Id20)
    requires IsRange(start, end, bits)
    ensures InRange(start, end, id)
    ensures forall j: nat :: j < 160 ==> GetBit(id, j) == GetBit(if j < 160 - bits then start else randomBytes, j)
  {
    hide Num, Pow2, Shr, BitOf, Aligned, GetBit, WithBit;
    var data := new byte[20](i requires 0 <= i < 20 => randomBytes[i]);
    var remainingBits := 160 - bits;
    var bit: nat := 0;
    NumFits(start);
    NumFits(data[..]);
    SmallShr(Num(start), 160);
    SmallShr(Num(data[..]), 160);
    assert data[..] == randomBytes;
    while bit < remainingBits
      invariant bit <= remainingBits
      invariant Shr(Num(data[..]), 160 - bit) == Shr(Num(start), 160 - bit)
      invariant forall j: nat :: j < 160 ==> GetBit(data[..], j) == GetBit(if j < bit then start else randomBytes, j)
    {
      CopyBit(data[..], start, bit);
      SetBit(data, bit, GetBit(start, bit));
      bit := bit + 1;
    }
    AlignedRange(Num(start), bits, Num(data[..]));
    id := data[..];
  }

  // Agreement on the bits before one, extended by copying that one.
  lemma CopyBit(id: Id20, start: Id20, bit: nat)
    requires bit < 160 && Shr(Num(id), 160 - bit) == Shr(Num(start), 160 - bit)
    ensures Shr(Num(WithBit(id, bit, GetBit(start, bit))), 159 - bit) == Shr(Num(start), 159 - bit)
  {
    var k := 159 - bit;
    var v := GetBit(start, bit);
    BitOfNum(id, bit);
    BitOfNum(start, bit);
    NumWithBit(id, bit, v);
    ShrStep(Num(id), k);
    ShrStep(Num(start), k);
    var n' := Num(WithBit(id, bit, v));
    if GetBit(id, bit) != v {
      if v { ShrAddPow(Num(id), k); } else { ShrAddPow(n', k); }
    }
  }
}
