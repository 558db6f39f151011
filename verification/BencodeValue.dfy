// The bencode format: values, what a value is written as, and what a byte string reads as.
// The serializer and deserializer objects are proved against these functions.
module BencodeValue {
  import opened Wrappers
  import Arithmetic
  import opened FlatFiles

  const I64_MIN: int := -0x8000_0000_0000_0000
  const I64_MAX: int := 0x7fff_ffff_ffff_ffff

  const CHAR_D: byte := 100
  const CHAR_E: byte := 101
  const CHAR_I: byte := 105
  const CHAR_L: byte := 108
  const CHAR_COLON: byte := 58
  const CHAR_MINUS: byte := 45
  const CHAR_PLUS: byte := 43

  datatype Value =
    | Bytestring(bytes: Bytes)
    | Integer(value: int)
    | List(items: seq<Value>)
    | Dict(entries: map<Bytes, Value>)

  // Every integer fits an i64, and every length a usize.
  ghost predicate Fits(v: Value) {
    match v
    case Bytestring(b) => |b| < U64_LIMIT
    case Integer(i) => I64_MIN <= i <= I64_MAX
    case List(l) => forall k :: 0 <= k < |l| ==> Fits(l[k])
    case Dict(m) => forall k :: k in m ==> |k| < U64_LIMIT && Fits(m[k])
  }

  // ---------------------------------------------------------------- decimal numbers

  predicate IsDigit(b: byte) { 48 <= b <= 57 }

  function Decimal(n: nat): (r: Bytes)
    ensures |r| > 0 && forall k :: 0 <= k < |r| ==> IsDigit(r[k])
  {
    if n < 10 then [48 + n] else Decimal(n / 10) + [48 + n % 10]
  }

  function SignedDecimal(i: int): Bytes { if i < 0 then [CHAR_MINUS] + Decimal(-i) else Decimal(i) }

  function ParseDigits(s: Bytes): (r: Option<nat>)
    ensures r.Some? <==> s != [] && forall k :: 0 <= k < |s| ==> IsDigit(s[k])
  {
    if s == [] then None
    else if !IsDigit(s[|s| - 1]) then None
    else if |s| == 1 then Some(s[0] - 48)
    else
      match ParseDigits(s[..|s| - 1])
      case None => None
      case Some(n) => Some(10 * n + (s[|s| - 1] - 48))
  }

  lemma {:induction false} ParseDecimal(n: nat)
    ensures ParseDigits(Decimal(n)) == Some(n)
  {
    if n >= 10 {
      ParseDecimal(n / 10);
      assert Decimal(n)[..|Decimal(n)| - 1] == Decimal(n / 10);
    }
  }

  // The decimal form: its digits are those of the number, the last one the ones, and it has no
  // leading zero.
  lemma {:induction false} DecimalDigits(n: nat, k: nat)
    requires k < |Decimal(n)|
    ensures Decimal(n)[|Decimal(n)| - 1 - k] == 48 + n / Pow10(k) % 10
    ensures n > 0 ==> Decimal(n)[0] != 48
    ensures n == 0 ==> Decimal(n) == [48]
  {
    if n >= 10 {
      DecimalDigits(n / 10, if k == 0 then 0 else k - 1);
      if k > 0 { DivTwice(n, Pow10(k - 1)); }
    }
  }

  function Pow10(k: nat): (p: nat)
    ensures p > 0
  {
    if k == 0 then 1 else 10 * Pow10(k - 1)
  }

  lemma DivTwice(n: nat, p: nat)
    requires p > 0
    ensures n / (10 * p) == n / 10 / p
  {
    var q := n / 10 / p;
    Arithmetic.DivBounds(n / 10, p);
    var m := n / 10;
    assert p * q <= m < p * q + p && 10 * m <= n < 10 * m + 10;
    assert 10 * p * q == 10 * (p * q);
    Arithmetic.DivUnique(n, 10 * p, q);
  }

  // What reads as a number is its decimal form after any number of zeros.
  lemma {:induction false} DigitsRead(s: Bytes, n: nat) returns (zeros: nat)
    requires ParseDigits(s) == Some(n)
    ensures s == seq(zeros, i => 48) + Decimal(n)
  {
    var last := |s| - 1;
    if last == 0 {
      zeros := 0;
    } else {
      var m := ParseDigits(s[..last]).value;
      zeros := DigitsRead(s[..last], m);
      assert s == s[..last] + [s[last]];
      if m == 0 {
        assert seq(zeros, i => 48) + [48] == seq(zeros + 1, i => 48);
        zeros := zeros + 1;
      } else {
        assert n / 10 == m && n % 10 == s[last] - 48;
      }
    }
  }

  // Rust's `parse` for an i64: an optional sign, then digits, within range.
  function ParseI64(s: Bytes): Option<int> {
    if s != [] && s[0] == CHAR_MINUS then
      match ParseDigits(s[1..])
      case Some(n) =>
        var i: int := n;
        if -i >= I64_MIN then Some(-i) else None
      case None => None
    else
      match ParseDigits(if s != [] && s[0] == CHAR_PLUS then s[1..] else s)
      case Some(n) => if n <= I64_MAX then Some(n) else None
      case None => None
  }

  // The same for a usize, which has no minus sign.
  function ParseUsize(s: Bytes): (r: Option<nat>)
    ensures r.Some? ==> r.value < U64_LIMIT
  {
    match ParseDigits(if s != [] && s[0] == CHAR_PLUS then s[1..] else s)
    case Some(n) => if n < U64_LIMIT then Some(n) else None
    case None => None
  }

  // A string is read as an i64 when it is digits of a number in range, after a sign or none,
  // and as a usize when it is digits of one below 2^64, after a plus or nothing.
  lemma ParseI64Iff(s: Bytes, i: int)
    ensures ParseI64(s) == Some(i) <==>
            && -0x8000_0000_0000_0000 <= i <= 0x7fff_ffff_ffff_ffff
            && ((i >= 0 && ParseDigits(s) == Some(i))
                || (s != [] && s[0] == 43 && i >= 0 && ParseDigits(s[1..]) == Some(i))
                || (s != [] && s[0] == 45 && i <= 0 && ParseDigits(s[1..]) == Some(-i)))
  {
    hide Decimal;
    var signed := s != [] && (s[0] == 43 || s[0] == 45);
    assert signed ==> ParseDigits(s).None?;
  }

  lemma ParseUsizeIff(s: Bytes, n: nat)
    ensures ParseUsize(s) == Some(n) <==>
            && n < 0x1_0000_0000_0000_0000
            && (ParseDigits(s) == Some(n) || (s != [] && s[0] == 43 && ParseDigits(s[1..]) == Some(n)))
  {
    hide Decimal;
    assert s != [] && s[0] == 43 ==> ParseDigits(s).None?;
  }

  lemma ParseSignedDecimal(i: int)
    requires I64_MIN <= i <= I64_MAX
    ensures ParseI64(SignedDecimal(i)) == Some(i)
  {
    ParseDecimal(if i < 0 then -i else i);
    if i < 0 { assert SignedDecimal(i)[1..] == Decimal(-i); }
  }

  // ---------------------------------------------------------------- order of keys

  predicate LexLess(a: Bytes, b: Bytes) {
    if b == [] then false
    else if a == [] then true
    else a[0] < b[0] || (a[0] == b[0] && LexLess(a[1..], b[1..]))
  }

  // The order of a dictionary: a proper beginning comes first, and otherwise the string with
  // the smaller byte at the first place where the two differ.
  ghost predicate ComesBefore(a: Bytes, b: Bytes) {
    exists i: nat :: && i <= |a| && i <= |b| && a[..i] == b[..i]
                     && (i == |a| < |b| || (i < |a| && i < |b| && a[i] < b[i]))
  }

  lemma {:induction false} LexLessIff(a: Bytes, b: Bytes)
    ensures LexLess(a, b) <==> ComesBefore(a, b)
  {
    if b == [] {
    } else if a == [] {
      assert a[..0] == b[..0];
    } else {
      LexLessIff(a[1..], b[1..]);
      if a[0] != b[0] {
        assert a[..0] == b[..0];
        forall i: nat | 0 < i <= |a| && i <= |b| ensures a[..i] != b[..i] { assert a[..i][0] != b[..i][0]; }
      } else {
        forall i: nat | 0 < i <= |a| && i <= |b| ensures a[..i] == b[..i] <==> a[1..][..i - 1] == b[1..][..i - 1] {
          assert a[..i] == [a[0]] + a[1..][..i - 1] && b[..i] == [b[0]] + b[1..][..i - 1];
          assert a[..i][1..] == a[1..][..i - 1] && b[..i][1..] == b[1..][..i - 1];
        }
        if ComesBefore(a[1..], b[1..]) {
          var j: nat :| && j < |a| && j < |b| && a[1..][..j] == b[1..][..j]
                        && (j == |a| - 1 < |b| - 1 || (j < |a| - 1 && j < |b| - 1 && a[1..][j] < b[1..][j]));
          assert a[..j + 1] == b[..j + 1];
        }
        if ComesBefore(a, b) {
          var i: nat :| && i <= |a| && i <= |b| && a[..i] == b[..i]
                        && (i == |a| < |b| || (i < |a| && i < |b| && a[i] < b[i]));
          assert a[1..][..i - 1] == b[1..][..i - 1];
        }
      }
    }
  }

  lemma {:induction false} LexTotal(a: Bytes, b: Bytes)
    ensures a == b || LexLess(a, b) || LexLess(b, a)
    ensures !(LexLess(a, b) && (a == b || LexLess(b, a)))
  {
    if a != [] && b != [] {
      LexTotal(a[1..], b[1..]);
      if a[0] == b[0] { assert a == [a[0]] + a[1..] && b == [b[0]] + b[1..]; }
    }
  }

  lemma {:induction false} LexTransitive(a: Bytes, b: Bytes, c: Bytes)
    requires LexLess(a, b) && LexLess(b, c)
    ensures LexLess(a, c)
  {
    if a != [] { if a[0] == b[0] == c[0] { LexTransitive(a[1..], b[1..], c[1..]); } }
  }

  ghost predicate IsLeast(k: Bytes, keys: set<Bytes>) {
    k in keys && forall o :: o in keys && o != k ==> LexLess(k, o)
  }

  lemma {:induction false} LeastExists(keys: set<Bytes>) returns (least: Bytes)
    requires keys != {}
    ensures IsLeast(least, keys)
    decreases |keys|
  {
    var k :| k in keys;
    var others := keys - {k};
    if others == {} {
      least := k;
      assert keys == {k};
    } else {
      var l := LeastExists(others);
      LexTotal(k, l);
      least := if LexLess(k, l) then k else l;
      forall o | o in keys && o != least ensures LexLess(least, o) {
        if least == k && o != l { LexTransitive(k, l, o); }
      }
    }
  }

  lemma LeastUnique(a: Bytes, b: Bytes, keys: set<Bytes>)
    requires IsLeast(a, keys) && IsLeast(b, keys)
    ensures a == b
  {
    LexTotal(a, b);
  }

  // The keys in the order a BTreeMap yields them.
  ghost function SortedKeys(keys: set<Bytes>): (r: seq<Bytes>)
    ensures forall k :: k in keys <==> k in r
    ensures |r| == |keys|
    decreases |keys|
  {
    if keys == {} then []
    else
      var k := LeastKey(keys);
      [k] + SortedKeys(keys - {k})
  }

  ghost function LeastKey(keys: set<Bytes>): (k: Bytes)
    requires keys != {}
    ensures IsLeast(k, keys)
  {
    assert exists k :: IsLeast(k, keys) by { var k := LeastExists(keys); }
    var k :| IsLeast(k, keys);
    k
  }

  ghost predicate StrictlySorted(s: seq<Bytes>) {
    forall i, j :: 0 <= i < j < |s| ==> LexLess(s[i], s[j])
  }

  // Keys come out strictly ascending in dictionary order.
  lemma SortedKeysAscend(keys: set<Bytes>)
    ensures var r := SortedKeys(keys); forall i, j :: 0 <= i < j < |r| ==> ComesBefore(r[i], r[j])
  {
    hide ComesBefore, LexLess, SortedKeys;
    var r := SortedKeys(keys);
    KeysAscend(keys);
    forall i, j | 0 <= i < j < |r| ensures ComesBefore(r[i], r[j]) { LexLessIff(r[i], r[j]); }
  }

  lemma {:induction false} KeysAscend(keys: set<Bytes>)
    ensures StrictlySorted(SortedKeys(keys))
    decreases |keys|
  {
    if keys != {} {
      var r := SortedKeys(keys);
      var k := r[0];
      assert r[1..] == SortedKeys(keys - {k});
      KeysAscend(keys - {k});
      forall i, j | 0 <= i < j < |r| ensures LexLess(r[i], r[j]) {
        if i > 0 { assert r[i] == r[1..][i - 1] && r[j] == r[1..][j - 1]; }
        else { assert r[j] in r[1..]; }
      }
    }
  }

  // ---------------------------------------------------------------- writing

  function EncodeBytes(b: Bytes): Bytes { Decimal(|b|) + [CHAR_COLON] + b }

  ghost function Encode(v: Value): Bytes
    decreases v, 1, 0
  {
    match v
    case Bytestring(b) => EncodeBytes(b)
    case Integer(i) => [CHAR_I] + SignedDecimal(i) + [CHAR_E]
    case List(l) => [CHAR_L] + EncodeItems(v, |l|) + [CHAR_E]
    case Dict(m) => [CHAR_D] + EncodeEntries(v, SortedKeys(m.Keys)) + [CHAR_E]
  }

  // The first n items of a list.
  ghost function EncodeItems(v: Value, n: nat): Bytes
    requires v.List? && n <= |v.items|
    decreases v, 0, n
  {
    if n == 0 then [] else EncodeItems(v, n - 1) + Encode(v.items[n - 1])
  }

  // The entries of a dict in the order of the given keys.
  ghost function EncodeEntries(v: Value, keys: seq<Bytes>): Bytes
    requires v.Dict? && forall k :: k in keys ==> k in v.entries
    decreases v, 0, |keys|
  {
    if keys == [] then []
    else EncodeEntries(v, keys[..|keys| - 1]) + EncodeBytes(keys[|keys| - 1]) + Encode(v.entries[keys[|keys| - 1]])
  }

  // ---------------------------------------------------------------- reading

  datatype ParseError = EmptyInput | UnexpectedEof | BadInteger | BadLength | ShortBytes | NotBytes

  datatype Parsed<T> = Done(value: T, rest: Bytes) | Fail(error: ParseError)

  // The first occurrence of a byte.
  function Position(buf: Bytes, b: byte): (r: Option<nat>)
    ensures r.None? ==> b !in buf
    ensures r.Some? ==> r.value < |buf| && buf[r.value] == b && b !in buf[..r.value]
  {
    if buf == [] then None
    else if buf[0] == b then Some(0)
    else
      match Position(buf[1..], b)
      case None => None
      case Some(i) =>
        assert buf[..i + 1] == [buf[0]] + buf[1..][..i];
        Some(i + 1)
  }

  function ParseInteger(buf: Bytes): (r: Parsed<int>)
    requires buf != [] && buf[0] == CHAR_I
    ensures r.Done? ==> |r.rest| < |buf|
  {
    match Position(buf, CHAR_E)
    case None => Fail(UnexpectedEof)
    case Some(end) =>
      match ParseI64(buf[1..end])
      case None => Fail(BadInteger)
      case Some(i) => Done(i, buf[end + 1..])
  }

  // A length that reaches past the end of the buffer fails, also when the sum wraps.
  function ParseBytes(buf: Bytes): (r: Parsed<Bytes>)
    ensures r.Done? ==> |r.rest| < |buf|
  {
    match Position(buf, CHAR_COLON)
    case None => Fail(UnexpectedEof)
    case Some(delim) =>
      match ParseUsize(buf[..delim])
      case None => Fail(BadLength)
      case Some(length) =>
        var start := delim + 1;
        if start + length <= |buf| then Done(buf[start..start + length], buf[start + length..])
        else Fail(ShortBytes)
  }

  function ParseBytesChecked(buf: Bytes): (r: Parsed<Bytes>)
    ensures r.Done? ==> |r.rest| < |buf|
  {
    if buf == [] then Fail(UnexpectedEof)
    else if !IsDigit(buf[0]) then Fail(NotBytes)
    else ParseBytes(buf)
  }

  function ParseValue(buf: Bytes): (r: Parsed<Value>)
    ensures r.Done? ==> |r.rest| < |buf|
    decreases |buf|, 0
  {
    if buf == [] then Fail(EmptyInput)
    else if buf[0] == CHAR_D then
      match ParseEntries(buf[1..], map[])
      case Done(m, rest) => Done(Dict(m), rest)
      case Fail(e) => Fail(e)
    else if buf[0] == CHAR_I then
      match ParseInteger(buf)
      case Done(i, rest) => Done(Integer(i), rest)
      case Fail(e) => Fail(e)
    else if buf[0] == CHAR_L then
      match ParseItems(buf[1..], [])
      case Done(l, rest) => Done(List(l), rest)
      case Fail(e) => Fail(e)
    else
      match ParseBytesChecked(buf)
      case Done(b, rest) => Done(Bytestring(b), rest)
      case Fail(e) => Fail(e)
  }

  function ParseItems(buf: Bytes, items: seq<Value>): (r: Parsed<seq<Value>>)
    ensures r.Done? ==> |r.rest| < |buf|
    decreases |buf|, 1
  {
    if buf != [] && buf[0] == CHAR_E then Done(items, buf[1..])
    else
      match ParseValue(buf)
      case Done(v, rest) => ParseItems(rest, items + [v])
      case Fail(e) => Fail(e)
  }

  // A key that occurs twice keeps its last value.
  function ParseEntries(buf: Bytes, entries: map<Bytes, Value>): (r: Parsed<map<Bytes, Value>>)
    ensures r.Done? ==> |r.rest| < |buf|
    decreases |buf|, 1
  {
    if buf != [] && buf[0] == CHAR_E then Done(entries, buf[1..])
    else
      match ParseBytesChecked(buf)
      case Fail(e) => Fail(e)
      case Done(k, afterKey) =>
        match ParseValue(afterKey)
        case Fail(e) => Fail(e)
        case Done(v, rest) => ParseEntries(rest, entries[k := v])
  }

  // ---------------------------------------------------------------- round trip

  lemma {:induction false} PositionAfter(front: Bytes, b: byte, r: Bytes)
    requires b !in front
    ensures Position(front + [b] + r, b) == Some(|front|)
  {
    if front != [] {
      assert (front + [b] + r)[1..] == front[1..] + [b] + r;
      PositionAfter(front[1..], b, r);
    }
  }

  lemma ParseEncodedBytes(b: Bytes, r: Bytes)
    requires |b| < U64_LIMIT
    ensures ParseBytesChecked(EncodeBytes(b) + r) == Done(b, r)
    ensures IsDigit((EncodeBytes(b) + r)[0])
  {
    var digits := Decimal(|b|);
    var buf := EncodeBytes(b) + r;
    assert buf == digits + [CHAR_COLON] + (b + r);
    PositionAfter(digits, CHAR_COLON, b + r);
    ParseDecimal(|b|);
    assert buf[..|digits|] == digits;
    assert buf[0] == digits[0];
    var start := |digits| + 1;
    assert buf[start..start + |b|] == b && buf[start + |b|..] == r;
  }

  lemma ParseEncodedInteger(i: int, r: Bytes)
    requires I64_MIN <= i <= I64_MAX
    ensures ParseInteger([CHAR_I] + SignedDecimal(i) + [CHAR_E] + r) == Done(i, r)
  {
    var front := [CHAR_I] + SignedDecimal(i);
    var buf := front + [CHAR_E] + r;
    assert CHAR_E !in front;
    PositionAfter(front, CHAR_E, r);
    assert buf[1..|front|] == SignedDecimal(i);
    ParseSignedDecimal(i);
    assert buf[|front| + 1..] == r;
  }

  lemma FirstByte(v: Value)
    ensures |Encode(v)| > 0 && Encode(v)[0] != CHAR_E
  {
    if v.Bytestring? { assert Encode(v)[0] == Decimal(|v.bytes|)[0]; }
  }

  // Whatever follows it, a written value reads as itself and leaves exactly what follows.
  lemma {:induction false} RoundTrip(v: Value, r: Bytes)
    requires Fits(v)
    ensures ParseValue(Encode(v) + r) == Done(v, r)
    decreases v, 2, 0
  {
    match v
    case Bytestring(b) => ParseEncodedBytes(b, r);
    case Integer(i) => ParseEncodedInteger(i, r);
    case List(_) => ListRoundTrip(v, r);
    case Dict(_) => DictRoundTrip(v, r);
  }

  lemma {:induction false} ListRoundTrip(v: Value, r: Bytes)
    requires Fits(v) && v.List?
    ensures ParseValue(Encode(v) + r) == Done(v, r)
    decreases v, 1, 0
  {
    hide Fits, Encode, ParseItems, ItemsFrom;
    ItemsRoundTrip(v, 0, r);
    assert v.items[..0] == [];
    EncodedList(v);
    ListBody(ItemsFrom(v, 0), r, Encode(v));
  }

  lemma EncodedList(v: Value)
    requires v.List?
    ensures Encode(v) == [CHAR_L] + ItemsFrom(v, 0) + [CHAR_E]
  {
    ItemsSplit(v, 0);
    assert EncodeItems(v, 0) == [];
  }

  lemma ListBody(items: Bytes, r: Bytes, whole: Bytes)
    requires whole == [CHAR_L] + items + [CHAR_E]
    ensures (whole + r)[0] == CHAR_L && (whole + r)[1..] == items + [CHAR_E] + r
  {
  }

  lemma {:induction false} DictRoundTrip(v: Value, r: Bytes)
    requires Fits(v) && v.Dict?
    ensures ParseValue(Encode(v) + r) == Done(v, r)
    decreases v, 1, 0
  {
    hide Fits, SortedKeys, ParseEntries, EntriesFrom, WithKeys;
    var keys := SortedKeys(v.entries.Keys);
    EntriesRoundTrip(v, keys, 0, map[], r);
    EncodedDict(v, keys);
    AllKeys(v, keys);
    DictBody(EntriesFrom(v, keys, 0), r, Encode(v));
  }

  lemma EncodedDict(v: Value, keys: seq<Bytes>)
    requires v.Dict? && keys == SortedKeys(v.entries.Keys)
    ensures Encode(v) == [CHAR_D] + EntriesFrom(v, keys, 0) + [CHAR_E]
  {
    hide SortedKeys;
    EntriesSplit(v, keys, 0);
    assert keys[..0] == [];
    assert EncodeEntries(v, keys[..0]) == [];
    assert EncodeEntries(v, keys) == EntriesFrom(v, keys, 0);
  }

  lemma AllKeys(v: Value, keys: seq<Bytes>)
    requires v.Dict? && keys == SortedKeys(v.entries.Keys)
    ensures WithKeys(map[], v, keys, 0) == v.entries
  {
    hide SortedKeys;
    assert keys[0..] == keys;
    WithKeysIs(map[], v, keys, 0);
  }

  lemma DictBody(entries: Bytes, r: Bytes, whole: Bytes)
    requires whole == [CHAR_D] + entries + [CHAR_E]
    ensures (whole + r)[0] == CHAR_D && (whole + r)[1..] == entries + [CHAR_E] + r
  {
  }

  lemma ParseItemsStep(body: Bytes, tail: Bytes, items: seq<Value>, v: Value)
    requires body != [] && body[0] != CHAR_E && ParseValue(body + tail) == Done(v, tail)
    ensures ParseItems(body + tail, items) == ParseItems(tail, items + [v])
  {
    hide ParseValue;
  }

  lemma ParseEntriesStep(k: Bytes, body: Bytes, tail: Bytes, entries: map<Bytes, Value>, v: Value)
    requires |k| < U64_LIMIT && ParseValue(body + tail) == Done(v, tail)
    ensures ParseEntries(EncodeBytes(k) + (body + tail), entries) == ParseEntries(tail, entries[k := v])
  {
    hide ParseValue, ParseBytesChecked, EncodeBytes;
    ParseEncodedBytes(k, body + tail);
  }

  lemma Associate(a: Bytes, b: Bytes, c: Bytes)
    ensures a + b + c == a + (b + c)
  {
  }

  // The items from index n on, written.
  ghost function ItemsFrom(v: Value, n: nat): Bytes
    requires v.List? && n <= |v.items|
    decreases |v.items| - n
  {
    if n == |v.items| then [] else Encode(v.items[n]) + ItemsFrom(v, n + 1)
  }

  lemma {:induction false} ItemsSplit(v: Value, n: nat)
    requires v.List? && n <= |v.items|
    ensures EncodeItems(v, |v.items|) == EncodeItems(v, n) + ItemsFrom(v, n)
    decreases |v.items| - n
  {
    hide Encode;
    if n < |v.items| {
      ItemsSplit(v, n + 1);
      Associate(EncodeItems(v, n), Encode(v.items[n]), ItemsFrom(v, n + 1));
    }
  }

  lemma {:induction false} ItemsRoundTrip(v: Value, n: nat, r: Bytes)
    requires v.List? && n <= |v.items| && Fits(v)
    ensures ParseItems(ItemsFrom(v, n) + [CHAR_E] + r, v.items[..n]) == Done(v.items, r)
    decreases v, 0, |v.items| - n
  {
    hide ParseValue, Encode;
    var buf := ItemsFrom(v, n) + [CHAR_E] + r;
    if n == |v.items| {
      assert buf == [CHAR_E] + r;
      assert v.items[..n] == v.items;
    } else {
      var tail := ItemsFrom(v, n + 1) + [CHAR_E] + r;
      assert buf == Encode(v.items[n]) + tail;
      FirstByte(v.items[n]);
      RoundTrip(v.items[n], tail);
      ParseItemsStep(Encode(v.items[n]), tail, v.items[..n], v.items[n]);
      assert v.items[..n] + [v.items[n]] == v.items[..n + 1];
      ItemsRoundTrip(v, n + 1, r);
    }
  }

  // The entries of the keys from index n on, written.
  ghost function EntriesFrom(v: Value, keys: seq<Bytes>, n: nat): Bytes
    requires v.Dict? && n <= |keys| && forall k :: k in keys ==> k in v.entries
    decreases |keys| - n
  {
    if n == |keys| then [] else EncodeBytes(keys[n]) + Encode(v.entries[keys[n]]) + EntriesFrom(v, keys, n + 1)
  }

  lemma {:induction false} EntriesSplit(v: Value, keys: seq<Bytes>, n: nat)
    requires v.Dict? && n <= |keys| && forall k :: k in keys ==> k in v.entries
    ensures EncodeEntries(v, keys) == EncodeEntries(v, keys[..n]) + EntriesFrom(v, keys, n)
    decreases |keys| - n
  {
    if n == |keys| {
      assert keys[..n] == keys;
    } else {
      hide Encode, EncodeBytes;
      EntriesSplit(v, keys, n + 1);
      assert keys[..n + 1][..n] == keys[..n];
      var k, before, after := keys[n], EncodeEntries(v, keys[..n]), EntriesFrom(v, keys, n + 1);
      Associate(before, EncodeBytes(k), Encode(v.entries[k]));
      Associate(before, EncodeBytes(k) + Encode(v.entries[k]), after);
    }
  }

  // A map that also holds the entries of the keys from index n on.
  ghost function WithKeys(entries: map<Bytes, Value>, v: Value, keys: seq<Bytes>, n: nat): map<Bytes, Value>
    requires v.Dict? && n <= |keys| && forall k :: k in keys ==> k in v.entries
    decreases |keys| - n
  {
    if n == |keys| then entries else WithKeys(entries[keys[n] := v.entries[keys[n]]], v, keys, n + 1)
  }

  lemma {:induction false} WithKeysIs(entries: map<Bytes, Value>, v: Value, keys: seq<Bytes>, n: nat)
    requires v.Dict? && n <= |keys| && forall k :: k in keys ==> k in v.entries
    requires forall k :: k in entries ==> k in v.entries && entries[k] == v.entries[k]
    requires forall k :: k in v.entries ==> k in entries || k in keys[n..]
    ensures WithKeys(entries, v, keys, n) == v.entries
    decreases |keys| - n
  {
    if n < |keys| {
      assert keys[n..] == [keys[n]] + keys[n + 1..];
      WithKeysIs(entries[keys[n] := v.entries[keys[n]]], v, keys, n + 1);
    } else {
      assert keys[n..] == [];
      assert entries.Keys == v.entries.Keys;
    }
  }

  lemma {:induction false} EntriesRoundTrip(v: Value, keys: seq<Bytes>, n: nat, entries: map<Bytes, Value>, r: Bytes)
    requires v.Dict? && n <= |keys| && Fits(v) && forall k :: k in keys ==> k in v.entries
    ensures ParseEntries(EntriesFrom(v, keys, n) + [CHAR_E] + r, entries) == Done(WithKeys(entries, v, keys, n), r)
    decreases v, 0, |keys| - n
  {
    hide ParseValue, Encode, ParseBytesChecked, EncodeBytes;
    var buf := EntriesFrom(v, keys, n) + [CHAR_E] + r;
    if n == |keys| {
      assert buf == [CHAR_E] + r;
    } else {
      var k := keys[n];
      assert k in keys;
      var tail := EntriesFrom(v, keys, n + 1) + [CHAR_E] + r;
      assert buf == EncodeBytes(k) + (Encode(v.entries[k]) + tail);
      RoundTrip(v.entries[k], tail);
      ParseEntriesStep(k, Encode(v.entries[k]), tail, entries, v.entries[k]);
      EntriesRoundTrip(v, keys, n + 1, entries[k := v.entries[k]], r);
    }
  }

  // What a value is written as: a string after its length and a colon, an integer between "i"
  // and "e", the items of a list between "l" and "e", and the entries of a dict between "d" and
  // "e", in the dictionary order of their keys.
  lemma WrittenForm(v: Value)
    ensures v.Bytestring? ==> Encode(v) == Decimal(|v.bytes|) + [58] + v.bytes
    ensures v.Integer? ==>
              Encode(v) == [105] + (if v.value < 0 then [45] + Decimal(-v.value) else Decimal(v.value)) + [101]
    ensures v.List? ==> Encode(v) == [108] + ItemsFrom(v, 0) + [101]
    ensures v.Dict? ==> InKeyOrder(v, SortedKeys(v.entries.Keys))
                        && Encode(v) == [100] + EntriesFrom(v, SortedKeys(v.entries.Keys), 0) + [101]
  {
    hide SortedKeys, ComesBefore;
    match v
    case List(_) => EncodedList(v);
    case Dict(_) =>
      EncodedDict(v, SortedKeys(v.entries.Keys));
      SortedKeysAscend(v.entries.Keys);
    case _ =>
  }

  // The keys are those of the dict, each once, in dictionary order.
  ghost predicate InKeyOrder(v: Value, keys: seq<Bytes>)
    requires v.Dict?
  {
    && (forall k :: k in keys <==> k in v.entries)
    && forall i, j :: 0 <= i < j < |keys| ==> ComesBefore(keys[i], keys[j])
  }

  // Different values are written differently.
  lemma EncodeInjective(a: Value, b: Value)
    requires Fits(a) && Fits(b) && Encode(a) == Encode(b)
    ensures a == b
  {
    RoundTrip(a, []);
    RoundTrip(b, []);
  }
}
