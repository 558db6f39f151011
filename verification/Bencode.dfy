// serde_bencode_de.rs and serde_bencode_ser.rs: the objects that read and write bencode,
// and the digest of the torrent's info value that reading a torrent leaves behind.
module Bencode {
  import opened Wrappers
  import opened FlatFiles
  import opened BencodeValue
  import FO = FileOps

  // "info"
  const INFO: Bytes := [105, 110, 102, 111]

  // ---------------------------------------------------------------- what parsing depends on

  // The part of a buffer that was read when `rest` is left.
  function Consumed(buf: Bytes, rest: Bytes): Bytes
    requires |rest| <= |buf|
  {
    buf[..|buf| - |rest|]
  }

  lemma PositionLocal(buf: Bytes, b: byte, n: nat, r: Bytes)
    requires Position(buf, b).Some? && Position(buf, b).value < n <= |buf|
    ensures Position(buf[..n] + r, b) == Position(buf, b)
  {
    var i := Position(buf, b).value;
    assert buf[..n] + r == buf[..i] + [b] + (buf[i + 1..n] + r);
    PositionAfter(buf[..i], b, buf[i + 1..n] + r);
  }

  lemma ParseIntegerLocal(buf: Bytes, r: Bytes)
    requires buf != [] && buf[0] == CHAR_I && ParseInteger(buf).Done?
    ensures buf == Consumed(buf, ParseInteger(buf).rest) + ParseInteger(buf).rest
    ensures ParseInteger(Consumed(buf, ParseInteger(buf).rest) + r) == Done(ParseInteger(buf).value, r)
  {
    var end := Position(buf, CHAR_E).value;
    PositionLocal(buf, CHAR_E, end + 1, r);
    var buf' := buf[..end + 1] + r;
    SliceInFront(buf[..end + 1], r, 1, end);
    assert buf[..end + 1][1..end] == buf[1..end];
    assert buf'[end + 1..] == r;
  }

  lemma ParseBytesLocal(buf: Bytes, r: Bytes)
    requires ParseBytesChecked(buf).Done?
    ensures buf == Consumed(buf, ParseBytesChecked(buf).rest) + ParseBytesChecked(buf).rest
    ensures ParseBytesChecked(Consumed(buf, ParseBytesChecked(buf).rest) + r) == Done(ParseBytesChecked(buf).value, r)
  {
    var delim := Position(buf, CHAR_COLON).value;
    var start := delim + 1;
    var end := start + ParseUsize(buf[..delim]).value;
    PositionLocal(buf, CHAR_COLON, end, r);
    var buf' := buf[..end] + r;
    SliceInFront(buf[..end], r, 0, delim);
    SliceInFront(buf[..end], r, start, end);
    assert buf[..end][..delim] == buf[..delim] && buf[..end][start..end] == buf[start..end];
    assert buf'[..delim] == buf'[0..delim] && buf'[end..] == r;
  }

  lemma ConsumedTail(buf: Bytes, rest: Bytes, r: Bytes)
    requires |rest| < |buf|
    ensures Consumed(buf, rest) + r != [] && (Consumed(buf, rest) + r)[0] == buf[0]
    ensures (Consumed(buf, rest) + r)[1..] == Consumed(buf[1..], rest) + r
    ensures buf[1..] == Consumed(buf[1..], rest) + rest ==> buf == Consumed(buf, rest) + rest
  {
    assert buf == [buf[0]] + buf[1..];
  }

  // A successful parse reads a prefix of the buffer and depends on nothing after it.
  lemma {:induction false} ParseValueLocal(buf: Bytes, r: Bytes)
    requires ParseValue(buf).Done?
    ensures buf == Consumed(buf, ParseValue(buf).rest) + ParseValue(buf).rest
    ensures ParseValue(Consumed(buf, ParseValue(buf).rest) + r) == Done(ParseValue(buf).value, r)
    decreases |buf|, 0
  {
    hide ParseInteger, ParseBytesChecked, ParseEntries, ParseItems, Consumed;
    ConsumedTail(buf, ParseValue(buf).rest, r);
    if buf[0] == CHAR_D {
      ParseEntriesLocal(buf[1..], map[], r);
    } else if buf[0] == CHAR_I {
      ParseIntegerLocal(buf, r);
    } else if buf[0] == CHAR_L {
      ParseItemsLocal(buf[1..], [], r);
    } else {
      ParseBytesLocal(buf, r);
    }
  }

  lemma {:induction false} ParseItemsLocal(buf: Bytes, items: seq<Value>, r: Bytes)
    requires ParseItems(buf, items).Done?
    ensures buf == Consumed(buf, ParseItems(buf, items).rest) + ParseItems(buf, items).rest
    ensures ParseItems(Consumed(buf, ParseItems(buf, items).rest) + r, items) == Done(ParseItems(buf, items).value, r)
    decreases |buf|, 1
  {
    hide ParseValue;
    var rest := ParseItems(buf, items).rest;
    var buf' := Consumed(buf, rest) + r;
    if buf != [] && buf[0] == CHAR_E {
      assert buf' == [CHAR_E] + r;
    } else {
      var Done(v, tail) := ParseValue(buf);
      ParseItemsLocal(tail, items + [v], r);
      ParseValueLocal(buf, Consumed(tail, rest) + r);
      Splits(buf, tail, rest, r);
      ParseItemsStep(Consumed(buf, tail), Consumed(tail, rest) + r, items, v);
    }
  }

  lemma Splits(buf: Bytes, tail: Bytes, rest: Bytes, r: Bytes)
    requires |rest| < |tail| < |buf| && buf == Consumed(buf, tail) + tail && tail == Consumed(tail, rest) + rest
    ensures Consumed(buf, rest) + r == Consumed(buf, tail) + (Consumed(tail, rest) + r)
    ensures buf == Consumed(buf, rest) + rest
    ensures Consumed(buf, tail) != [] && Consumed(buf, tail)[0] == buf[0]
  {
  }

  lemma {:induction false} ParseEntriesLocal(buf: Bytes, entries: map<Bytes, Value>, r: Bytes)
    requires ParseEntries(buf, entries).Done?
    ensures buf == Consumed(buf, ParseEntries(buf, entries).rest) + ParseEntries(buf, entries).rest
    ensures ParseEntries(Consumed(buf, ParseEntries(buf, entries).rest) + r, entries) ==
              Done(ParseEntries(buf, entries).value, r)
    decreases |buf|, 1
  {
    hide ParseValue, ParseBytesChecked;
    var rest := ParseEntries(buf, entries).rest;
    var buf' := Consumed(buf, rest) + r;
    if buf != [] && buf[0] == CHAR_E {
      assert buf' == [CHAR_E] + r;
    } else {
      var Done(k, afterKey) := ParseBytesChecked(buf);
      var Done(v, tail) := ParseValue(afterKey);
      ParseEntriesLocal(tail, entries[k := v], r);
      ParseValueLocal(afterKey, Consumed(tail, rest) + r);
      Splits(afterKey, tail, rest, r);
      ParseBytesLocal(buf, Consumed(afterKey, rest) + r);
      Splits(buf, afterKey, rest, r);
    }
  }

  // ---------------------------------------------------------------- the info digest

  // The digest after parsing a value while no key is open: the hash of the raw bytes of
  // the last value that stood under the key "info" one level below.
  function DigestValue(buf: Bytes, d: Option<FO.Digest>, sha1: Bytes -> FO.Digest): Option<FO.Digest>
    decreases |buf|, 0
  {
    if buf == [] then d
    else if buf[0] == CHAR_D then DigestEntries(buf[1..], d, sha1)
    else if buf[0] == CHAR_L then DigestItems(buf[1..], d, sha1)
    else d
  }

  function DigestItems(buf: Bytes, d: Option<FO.Digest>, sha1: Bytes -> FO.Digest): Option<FO.Digest>
    decreases |buf|, 1
  {
    if buf != [] && buf[0] == CHAR_E then d
    else
      match ParseValue(buf)
      case Fail(_) => d
      case Done(_, rest) => DigestItems(rest, DigestValue(buf, d, sha1), sha1)
  }

  function DigestEntries(buf: Bytes, d: Option<FO.Digest>, sha1: Bytes -> FO.Digest): Option<FO.Digest>
    decreases |buf|, 1
  {
    if buf != [] && buf[0] == CHAR_E then d
    else
      match ParseBytesChecked(buf)
      case Fail(_) => d
      case Done(k, afterKey) =>
        match ParseValue(afterKey)
        case Fail(_) => d
        case Done(_, rest) => DigestEntries(rest, if k == INFO then Some(sha1(Consumed(afterKey, rest))) else d, sha1)
  }

  // The bytes of `span` lie in the buffer and read as the value.
  ghost predicate IsRawSpan(buf: Bytes, span: Bytes, v: Value) {
    && (exists a, b :: 0 <= a <= b <= |buf| && span == buf[a..b])
    && ParseValue(span) == Done(v, [])
  }

  // What parsing the entries of a dict makes of the digest.
  lemma {:induction false} DigestOfEntries(buf: Bytes, entries: map<Bytes, Value>, d: Option<FO.Digest>,
                                           sha1: Bytes -> FO.Digest)
    returns (span: Option<Bytes>)
    requires ParseEntries(buf, entries).Done?
    ensures span.None? ==> DigestEntries(buf, d, sha1) == d
                           && (INFO in ParseEntries(buf, entries).value <==> INFO in entries)
                           && (INFO in entries ==> ParseEntries(buf, entries).value[INFO] == entries[INFO])
    ensures span.Some? ==> INFO in ParseEntries(buf, entries).value
                           && IsRawSpan(buf, span.value, ParseEntries(buf, entries).value[INFO])
                           && DigestEntries(buf, d, sha1) == Some(sha1(span.value))
    decreases |buf|
  {
    hide ParseValue, ParseBytesChecked, IsRawSpan;
    if buf != [] && buf[0] == CHAR_E { return None; }
    var Done(k, afterKey) := ParseBytesChecked(buf);
    var Done(v, rest) := ParseValue(afterKey);
    var here := Consumed(afterKey, rest);
    span := DigestOfEntries(rest, entries[k := v], if k == INFO then Some(sha1(here)) else d, sha1);
    ParseBytesLocal(buf, []);
    ParseValueLocal(afterKey, []);
    if span.Some? {
      SpanInTail(buf, afterKey, rest, span.value, ParseEntries(buf, entries).value[INFO]);
    } else if k == INFO {
      SpanHere(buf, afterKey, rest, v);
      span := Some(here);
    }
  }

  lemma SpanInTail(buf: Bytes, afterKey: Bytes, rest: Bytes, span: Bytes, v: Value)
    requires |rest| <= |afterKey| <= |buf|
    requires buf == Consumed(buf, afterKey) + afterKey && afterKey == Consumed(afterKey, rest) + rest
    requires IsRawSpan(rest, span, v)
    ensures IsRawSpan(buf, span, v)
  {
    hide ParseValue;
    var a, b :| 0 <= a <= b <= |rest| && span == rest[a..b];
    var o := |buf| - |rest|;
    assert span == buf[o + a..o + b];
  }

  lemma SpanHere(buf: Bytes, afterKey: Bytes, rest: Bytes, v: Value)
    requires |rest| <= |afterKey| <= |buf|
    requires buf == Consumed(buf, afterKey) + afterKey && afterKey == Consumed(afterKey, rest) + rest
    requires ParseValue(Consumed(afterKey, rest) + []) == Done(v, [])
    ensures IsRawSpan(buf, Consumed(afterKey, rest), v)
  {
    hide ParseValue;
    assert Consumed(afterKey, rest) + [] == Consumed(afterKey, rest);
    var o := |buf| - |afterKey|;
    assert Consumed(afterKey, rest) == buf[o..|buf| - |rest|];
  }

  // Reading a dict hashes the raw bytes of its "info" value, whatever else the dict and
  // that value hold, and hashes nothing when there is none.
  lemma InfoDigest(buf: Bytes, sha1: Bytes -> FO.Digest) returns (span: Option<Bytes>)
    requires ParseValue(buf).Done? && ParseValue(buf).value.Dict?
    ensures var m := ParseValue(buf).value.entries;
            && (span.Some? <==> INFO in m)
            && (span.Some? ==> IsRawSpan(buf, span.value, m[INFO]))
            && DigestValue(buf, None, sha1) == if span.Some? then Some(sha1(span.value)) else None
  {
    hide ParseEntries, DigestEntries;
    span := DigestOfEntries(buf[1..], map[], None, sha1);
    if span.Some? {
      var a, b :| 0 <= a <= b <= |buf[1..]| && span.value == buf[1..][a..b];
      assert span.value == buf[a + 1..b + 1];
    }
  }

  // Reading a written dict hashes exactly what its "info" value is written as.
  lemma DigestOfWritten(v: Value, r: Bytes, sha1: Bytes -> FO.Digest)
    requires Fits(v) && v.Dict?
    ensures DigestValue(Encode(v) + r, None, sha1) ==
            if INFO in v.entries then Some(sha1(Encode(v.entries[INFO]))) else None
  {
    hide Fits, SortedKeys, EntriesFrom, DigestEntries;
    var keys := SortedKeys(v.entries.Keys);
    EncodedDict(v, keys);
    DictBody(EntriesFrom(v, keys, 0), r, Encode(v));
    DigestOfWrittenEntries(v, keys, 0, None, r, sha1);
    assert keys[0..] == keys;
  }

  lemma {:induction false} DigestOfWrittenEntries(v: Value, keys: seq<Bytes>, n: nat, d: Option<FO.Digest>, r: Bytes,
                                                  sha1: Bytes -> FO.Digest)
    requires v.Dict? && n <= |keys| && Fits(v) && forall k :: k in keys ==> k in v.entries
    ensures DigestEntries(EntriesFrom(v, keys, n) + [CHAR_E] + r, d, sha1) ==
            if INFO in keys[n..] then Some(sha1(Encode(v.entries[INFO]))) else d
    decreases |keys| - n
  {
    hide ParseValue, Encode, ParseBytesChecked, EncodeBytes, DigestEntries;
    var buf := EntriesFrom(v, keys, n) + [CHAR_E] + r;
    if n == |keys| {
      assert buf == [CHAR_E] + r;
      DigestAtEnd(r, d, sha1);
    } else {
      var k := keys[n];
      assert k in keys;
      var tail := EntriesFrom(v, keys, n + 1) + [CHAR_E] + r;
      assert buf == EncodeBytes(k) + (Encode(v.entries[k]) + tail);
      RoundTrip(v.entries[k], tail);
      DigestStep(k, Encode(v.entries[k]), tail, v.entries[k], d, sha1);
      DigestOfWrittenEntries(v, keys, n + 1, if k == INFO then Some(sha1(Encode(v.entries[k]))) else d, r, sha1);
      assert keys[n..] == [k] + keys[n + 1..];
    }
  }

  lemma DigestAtEnd(r: Bytes, d: Option<FO.Digest>, sha1: Bytes -> FO.Digest)
    ensures DigestEntries([CHAR_E] + r, d, sha1) == d
  {
  }

  lemma DigestStep(k: Bytes, body: Bytes, tail: Bytes, v: Value, d: Option<FO.Digest>, sha1: Bytes -> FO.Digest)
    requires |k| < U64_LIMIT && ParseValue(body + tail) == Done(v, tail)
    ensures DigestEntries(EncodeBytes(k) + (body + tail), d, sha1) ==
            DigestEntries(tail, if k == INFO then Some(sha1(body)) else d, sha1)
  {
    hide ParseValue, ParseBytesChecked, EncodeBytes;
    ParseEncodedBytes(k, body + tail);
    assert Consumed(body + tail, tail) == body;
  }

  // ---------------------------------------------------------------- the deserializer

  // A method's result agrees with the function it is proved against.
  predicate Agrees<T(==)>(r: Result<T, ParseError>, buf: Bytes, p: Parsed<T>) {
    match p
    case Done(v, rest) => r == Ok(v) && buf == rest
    case Fail(e) => r == Err(e)
  }

  lemma OnlyInfoIsOpen(context: seq<Bytes>, k: Bytes)
    ensures context + [k] == [INFO] <==> context == [] && k == INFO
    ensures (context + [k])[..|context + [k]| - 1] == context
  {
    if context + [k] == [INFO] { assert |context| == 0 && (context + [k])[0] == k; }
  }

  class BencodeDeserializer {
    var buf: Bytes
    var fieldContext: seq<Bytes>
    var parsingKey: bool
    var torrentInfoDigest: Option<FO.Digest>
    const isTorrentInfo: bool
    const sha1: Bytes -> FO.Digest

    constructor (buf: Bytes, isTorrentInfo: bool, sha1: Bytes -> FO.Digest)
      ensures this.buf == buf && fieldContext == [] && !parsingKey && torrentInfoDigest == None
      ensures this.isTorrentInfo == isTorrentInfo && this.sha1 == sha1
    {
      this.buf, this.fieldContext, this.parsingKey, this.torrentInfoDigest := buf, [], false, None;
      this.isTorrentInfo, this.sha1 := isTorrentInfo, sha1;
    }

    method FindByte(b: byte) returns (r: Option<nat>)
      ensures r == Position(buf, b)
    {
      var i := 0;
      while i < |buf|
        invariant 0 <= i <= |buf| && b !in buf[..i]
      {
        if buf[i] == b {
          assert buf == buf[..i] + [b] + buf[i + 1..];
          PositionAfter(buf[..i], b, buf[i + 1..]);
          return Some(i);
        }
        i := i + 1;
      }
      assert buf[..i] == buf;
      r := None;
    }

    method ParseIntegerHere() returns (r: Result<int, ParseError>)
      requires buf != [] && buf[0] == CHAR_I
      modifies `buf
      ensures Agrees(r, buf, ParseInteger(old(buf)))
    {
      var end := FindByte(CHAR_E);
      if end.None? { return Err(UnexpectedEof); }
      var value := ParseI64(buf[1..end.value]);
      if value.None? { return Err(BadInteger); }
      buf := buf[end.value + 1..];
      r := Ok(value.value);
    }

    method ParseBytesHere() returns (r: Result<Bytes, ParseError>)
      modifies `buf
      ensures Agrees(r, buf, ParseBytes(old(buf)))
    {
      var delim := FindByte(CHAR_COLON);
      if delim.None? { return Err(UnexpectedEof); }
      var length := ParseUsize(buf[..delim.value]);
      if length.None? { return Err(BadLength); }
      var bytesStart := delim.value + 1;
      var bytesEnd := bytesStart + length.value;
      if bytesEnd > |buf| { return Err(ShortBytes); }
      var b := buf[bytesStart..bytesEnd];
      buf := buf[bytesEnd..];
      r := Ok(b);
    }

    // A key that was read is pushed to the field context.
    method ParseBytesCheckedHere() returns (r: Result<Bytes, ParseError>)
      modifies `buf, `fieldContext
      ensures Agrees(r, buf, ParseBytesChecked(old(buf)))
      ensures r.Ok? ==> fieldContext == if parsingKey then old(fieldContext) + [r.value] else old(fieldContext)
    {
      if buf == [] { return Err(UnexpectedEof); }
      if !IsDigit(buf[0]) { return Err(NotBytes); }
      r := ParseBytesHere();
      if r.Ok? && parsingKey { fieldContext := fieldContext + [r.value]; }
    }

    // The digest after a value read in the given context.
    ghost function DigestAfter(context: seq<Bytes>, start: Bytes, d: Option<FO.Digest>): Option<FO.Digest> {
      if isTorrentInfo && context == [] then DigestValue(start, d, sha1) else d
    }

    // `deserialize_any` for a value. After every success the field context is what it was.
    method DeserializeAny() returns (r: Result<Value, ParseError>)
      requires !parsingKey
      modifies `buf, `fieldContext, `parsingKey, `torrentInfoDigest
      ensures Agrees(r, buf, ParseValue(old(buf)))
      ensures r.Ok? ==> fieldContext == old(fieldContext) && !parsingKey
      ensures r.Ok? ==> torrentInfoDigest == DigestAfter(old(fieldContext), old(buf), old(torrentInfoDigest))
      decreases |buf|, 0
    {
      hide ParseInteger, ParseBytesChecked, ParseEntries, ParseItems, DigestEntries, DigestItems;
      if buf == [] { return Err(EmptyInput); }
      if buf[0] == CHAR_D {
        buf := buf[1..];
        var m := VisitMap();
        r := if m.Ok? then Ok(Dict(m.value)) else Err(m.error);
      } else if buf[0] == CHAR_I {
        var i := ParseIntegerHere();
        r := if i.Ok? then Ok(Integer(i.value)) else Err(i.error);
      } else if buf[0] == CHAR_L {
        buf := buf[1..];
        var l := VisitSeq();
        r := if l.Ok? then Ok(List(l.value)) else Err(l.error);
      } else {
        var b := ParseBytesCheckedHere();
        r := if b.Ok? then Ok(Bytestring(b.value)) else Err(b.error);
      }
    }

    // `next_key_seed`: none at the end of the dict, else the key, which is now open.
    method NextKey() returns (r: Result<Option<Bytes>, ParseError>)
      requires !parsingKey
      modifies `buf, `fieldContext, `parsingKey
      ensures var start := old(buf);
              if start != [] && start[0] == CHAR_E then
                r == Ok(None) && buf == start[1..] && fieldContext == old(fieldContext) && !parsingKey
              else
                match ParseBytesChecked(start)
                case Fail(e) => r == Err(e)
                case Done(k, rest) =>
                  r == Ok(Some(k)) && buf == rest && fieldContext == old(fieldContext) + [k] && !parsingKey
    {
      if buf != [] && buf[0] == CHAR_E {
        buf := buf[1..];
        return Ok(None);
      }
      parsingKey := true;
      var k := ParseBytesCheckedHere();
      if k.Err? { return Err(k.error); }
      parsingKey := false;
      r := Ok(Some(k.value));
    }

    // `next_value_seed`: the value of the open key, which is closed; the value of a lone
    // "info" key is hashed.
    method NextValue() returns (r: Result<Value, ParseError>)
      requires !parsingKey && fieldContext != []
      modifies `buf, `fieldContext, `parsingKey, `torrentInfoDigest
      ensures Agrees(r, buf, ParseValue(old(buf)))
      ensures r.Ok? ==> fieldContext == old(fieldContext)[..|old(fieldContext)| - 1] && !parsingKey
      ensures r.Ok? ==> torrentInfoDigest ==
                        if isTorrentInfo && old(fieldContext) == [INFO] then Some(sha1(Consumed(old(buf), buf)))
                        else old(torrentInfoDigest)
      decreases |buf|, 1
    {
      hide ParseValue, DigestValue;
      var before := buf;
      r := DeserializeAny();
      if r.Err? { return; }
      if isTorrentInfo && fieldContext == [INFO] {
        torrentInfoDigest := Some(sha1(before[..|before| - |buf|]));
      }
      fieldContext := fieldContext[..|fieldContext| - 1];
    }

    // What the digest becomes over the entries of a dict in the given context.
    ghost function DigestAfterEntries(context: seq<Bytes>, start: Bytes, d: Option<FO.Digest>): Option<FO.Digest> {
      if isTorrentInfo && context == [] then DigestEntries(start, d, sha1) else d
    }

    ghost function DigestAfterItems(context: seq<Bytes>, start: Bytes, d: Option<FO.Digest>): Option<FO.Digest> {
      if isTorrentInfo && context == [] then DigestItems(start, d, sha1) else d
    }

    method VisitMap() returns (r: Result<map<Bytes, Value>, ParseError>)
      requires !parsingKey
      modifies `buf, `fieldContext, `parsingKey, `torrentInfoDigest
      ensures Agrees(r, buf, ParseEntries(old(buf), map[]))
      ensures r.Ok? ==> fieldContext == old(fieldContext) && !parsingKey
      ensures r.Ok? ==> torrentInfoDigest == DigestAfterEntries(old(fieldContext), old(buf), old(torrentInfoDigest))
      decreases |buf|, 2
    {
      hide ParseValue, ParseBytesChecked;
      ghost var context, start, d := fieldContext, buf, torrentInfoDigest;
      var hmap := map[];
      while true
        invariant !parsingKey && fieldContext == context && |buf| <= |start|
        invariant ParseEntries(buf, hmap) == ParseEntries(start, map[])
        invariant DigestAfterEntries(context, buf, torrentInfoDigest) == DigestAfterEntries(context, start, d)
        decreases |buf|
      {
        var key := NextKey();
        if key.Err? { return Err(key.error); }
        if key.value.None? { return Ok(hmap); }
        OnlyInfoIsOpen(context, key.value.value);
        var value := NextValue();
        if value.Err? { return Err(value.error); }
        hmap := hmap[key.value.value := value.value];
      }
    }

    // `next_element_seed`.
    method NextElement() returns (r: Result<Option<Value>, ParseError>)
      requires !parsingKey
      modifies `buf, `fieldContext, `parsingKey, `torrentInfoDigest
      ensures var start := old(buf);
              if start != [] && start[0] == CHAR_E then r == Ok(None) && buf == start[1..]
              else
                match ParseValue(start)
                case Fail(e) => r == Err(e)
                case Done(v, rest) => r == Ok(Some(v)) && buf == rest
      ensures r.Ok? ==> fieldContext == old(fieldContext) && !parsingKey
      ensures r.Ok? ==> torrentInfoDigest ==
                        if r.value.Some? then DigestAfter(old(fieldContext), old(buf), old(torrentInfoDigest))
                        else old(torrentInfoDigest)
      decreases |buf|, 1
    {
      hide ParseValue, DigestValue;
      if buf != [] && buf[0] == CHAR_E {
        buf := buf[1..];
        return Ok(None);
      }
      var v := DeserializeAny();
      r := if v.Ok? then Ok(Some(v.value)) else Err(v.error);
    }

    method VisitSeq() returns (r: Result<seq<Value>, ParseError>)
      requires !parsingKey
      modifies `buf, `fieldContext, `parsingKey, `torrentInfoDigest
      ensures Agrees(r, buf, ParseItems(old(buf), []))
      ensures r.Ok? ==> fieldContext == old(fieldContext) && !parsingKey
      ensures r.Ok? ==> torrentInfoDigest == DigestAfterItems(old(fieldContext), old(buf), old(torrentInfoDigest))
      decreases |buf|, 2
    {
      hide ParseValue, DigestValue;
      ghost var context, start, d := fieldContext, buf, torrentInfoDigest;
      var v: seq<Value> := [];
      while true
        invariant !parsingKey && fieldContext == context && |buf| <= |start|
        invariant ParseItems(buf, v) == ParseItems(start, [])
        invariant DigestAfterItems(context, buf, torrentInfoDigest) == DigestAfterItems(context, start, d)
        decreases |buf|
      {
        var value := NextElement();
        if value.Err? { return Err(value.error); }
        if value.value.None? { return Ok(v); }
        v := v + [value.value.value];
      }
    }
  }

  // `from_bytes`: the whole buffer must be one value.
  method FromBytes(buf: Bytes, sha1: Bytes -> FO.Digest) returns (r: Result<Value, Option<ParseError>>)
    ensures r.Ok? <==> ParseValue(buf).Done? && ParseValue(buf).rest == []
    ensures r.Ok? ==> r.value == ParseValue(buf).value
  {
    hide ParseValue;
    var de := new BencodeDeserializer(buf, false, sha1);
    var v := de.DeserializeAny();
    if v.Err? { return Err(Some(v.error)); }
    if de.buf != [] { return Err(None); }
    r := Ok(v.value);
  }

  // `torrent_from_bytes`: the value and its info hash. What is left of the buffer is not
  // looked at.
  method TorrentFromBytes(buf: Bytes, sha1: Bytes -> FO.Digest)
    returns (r: Result<(Value, FO.Digest), Option<ParseError>>)
    ensures r.Ok? <==> ParseValue(buf).Done? && DigestValue(buf, None, sha1).Some?
    ensures r.Ok? ==> r.value == (ParseValue(buf).value, DigestValue(buf, None, sha1).value)
  {
    hide ParseValue, DigestValue;
    var de := new BencodeDeserializer(buf, true, sha1);
    var v := de.DeserializeAny();
    if v.Err? { return Err(Some(v.error)); }
    if de.torrentInfoDigest.None? { return Err(None); }
    r := Ok((v.value, de.torrentInfoDigest.value));
  }

  // ---------------------------------------------------------------- the serializer

  // The least key of a set, whatever order the set is walked in.
  method LeastOf(keys: set<Bytes>) returns (least: Bytes)
    requires keys != {}
    ensures IsLeast(least, keys)
  {
    least :| least in keys;
    var rest := keys - {least};
    while rest != {}
      invariant rest <= keys && least in keys && least !in rest
      invariant forall o :: o in keys - rest && o != least ==> LexLess(least, o)
      decreases |rest|
    {
      var k :| k in rest;
      rest := rest - {k};
      LexTotal(k, least);
      if LexLess(k, least) {
        forall o | o in keys - rest && o != k ensures LexLess(k, o) {
          if o != least { LexTransitive(k, least, o); }
        }
        least := k;
      }
    }
  }

  class BencodeSerializer {
    var writer: Bytes
    const hackNoBytestringPrefix: bool

    constructor (hack: bool)
      ensures writer == [] && hackNoBytestringPrefix == hack
    {
      writer, hackNoBytestringPrefix := [], hack;
    }

    method WriteRaw(b: Bytes)
      modifies `writer
      ensures writer == old(writer) + b
    {
      writer := writer + b;
    }

    method WriteNumber(i: int)
      modifies `writer
      ensures writer == old(writer) + ([CHAR_I] + SignedDecimal(i) + [CHAR_E])
    {
      WriteRaw([CHAR_I] + SignedDecimal(i) + [CHAR_E]);
    }

    method WriteBytes(b: Bytes)
      modifies `writer
      ensures writer == old(writer) + if hackNoBytestringPrefix then b else EncodeBytes(b)
    {
      if !hackNoBytestringPrefix { WriteRaw(Decimal(|b|) + [CHAR_COLON]); }
      WriteRaw(b);
      assert old(writer) + (Decimal(|b|) + [CHAR_COLON]) + b == old(writer) + (Decimal(|b|) + [CHAR_COLON] + b);
    }

    // A value is written as `Encode` says, in whatever order a dict's map is walked.
    method Serialize(v: Value)
      requires !hackNoBytestringPrefix
      modifies `writer
      ensures writer == old(writer) + Encode(v)
      decreases v, 1
    {
      hide EncodeItems, EncodeEntries, EncodeBytes, SignedDecimal;
      match v
      case Bytestring(b) => WriteBytes(b);
      case Integer(i) => WriteNumber(i);
      case List(_) => SerializeList(v);
      case Dict(_) => SerializeDict(v);
    }

    method SerializeList(v: Value)
      requires !hackNoBytestringPrefix && v.List?
      modifies `writer
      ensures writer == old(writer) + Encode(v)
      decreases v, 0
    {
      WriteRaw([CHAR_L]);
      var i: nat := 0;
      while i < |v.items|
        invariant i <= |v.items| && writer == old(writer) + ([CHAR_L] + EncodeItems(v, i))
      {
        Serialize(v.items[i]);
        Associate([CHAR_L], EncodeItems(v, i), Encode(v.items[i]));
        Associate(old(writer), [CHAR_L] + EncodeItems(v, i), Encode(v.items[i]));
        i := i + 1;
      }
      WriteRaw([CHAR_E]);
      Associate(old(writer), [CHAR_L] + EncodeItems(v, i), [CHAR_E]);
    }

    // The entries gather in a sorted map, key bytes and written value, before they are
    // written in key order.
    method SerializeDict(v: Value)
      requires !hackNoBytestringPrefix && v.Dict?
      modifies `writer
      ensures writer == old(writer) + Encode(v)
      ensures var keys := SortedKeys(v.entries.Keys);
              InKeyOrder(v, keys) && writer == old(writer) + ([100] + EntriesFrom(v, keys, 0) + [101])
      decreases v, 0
    {
      hide EncodeEntries, SortedKeys, Encode, IsLeast, EntriesFrom, InKeyOrder;
      WriteRaw([CHAR_D]);
      var tmp: map<Bytes, Bytes> := map[];
      var keys := v.entries.Keys;
      while keys != {}
        invariant keys <= v.entries.Keys && tmp.Keys == v.entries.Keys - keys
        invariant forall k :: k in tmp ==> k in v.entries && tmp[k] == Encode(v.entries[k])
        invariant writer == old(writer) + [CHAR_D]
        decreases |keys|
      {
        var k :| k in keys;
        keys := keys - {k};
        var keySer := new BencodeSerializer(true);
        keySer.WriteBytes(k);
        var valueSer := new BencodeSerializer(false);
        valueSer.Serialize(v.entries[k]);
        assert [] + k == k && [] + Encode(v.entries[k]) == Encode(v.entries[k]);
        tmp := tmp[keySer.writer := valueSer.writer];
      }
      WriteEntries(tmp, v);
      WriteRaw([CHAR_E]);
      DictIs(old(writer), v);
      DictForm(v);
    }

    // One entry, after those that were written to the writer that was there.
    method WriteEntry(key: Bytes, value: Bytes, ghost v: Value, ghost done: seq<Bytes>, ghost before: Bytes)
      requires !hackNoBytestringPrefix && v.Dict? && key in v.entries && value == Encode(v.entries[key])
      requires forall k :: k in done ==> k in v.entries
      requires writer == before + EncodeEntries(v, done)
      modifies `writer
      ensures writer == before + EncodeEntries(v, done + [key])
    {
      hide Encode, EncodeBytes, EncodeEntries;
      ghost var was := EncodeEntries(v, done);
      WriteBytes(key);
      WriteRaw(value);
      EntryWritten(v, done, key);
      Associate(before, was, EncodeBytes(key));
      Associate(before, was + EncodeBytes(key), value);
    }

    method WriteEntries(tmp: map<Bytes, Bytes>, ghost v: Value)
      requires !hackNoBytestringPrefix && v.Dict? && tmp.Keys == v.entries.Keys
      requires forall k :: k in tmp ==> tmp[k] == Encode(v.entries[k])
      modifies `writer
      ensures writer == old(writer) + EncodeEntries(v, SortedKeys(v.entries.Keys))
    {
      hide Encode, EncodeBytes, EncodeEntries, SortedKeys, IsLeast;
      var rest := tmp.Keys;
      ghost var done: seq<Bytes> := [];
      SortedNone();
      NoEntries(old(writer), v);
      while rest != {}
        invariant rest <= tmp.Keys && forall k :: k in done ==> k in v.entries
        invariant done + SortedKeys(rest) == SortedKeys(v.entries.Keys)
        invariant writer == old(writer) + EncodeEntries(v, done)
        decreases |rest|
      {
        var key := LeastOf(rest);
        LeastIsIn(key, rest);
        SortedFirst(key, rest);
        WriteEntry(key, tmp[key], v, done, old(writer));
        assert done + ([key] + SortedKeys(rest - {key})) == done + [key] + SortedKeys(rest - {key});
        done := done + [key];
        rest := rest - {key};
      }
      assert done + [] == done;
    }
  }

  lemma LeastIsIn(k: Bytes, keys: set<Bytes>)
    requires IsLeast(k, keys)
    ensures k in keys
  {
  }

  lemma NoEntries(before: Bytes, v: Value)
    requires v.Dict?
    ensures before == before + EncodeEntries(v, [])
  {
  }

  lemma SortedNone()
    ensures SortedKeys({}) == []
  {
  }

  // The least key comes first.
  lemma SortedFirst(k: Bytes, keys: set<Bytes>)
    requires IsLeast(k, keys)
    ensures SortedKeys(keys) == [k] + SortedKeys(keys - {k})
  {
    LeastUnique(k, LeastKey(keys), keys);
  }

  lemma EntryWritten(v: Value, done: seq<Bytes>, k: Bytes)
    requires v.Dict? && k in v.entries && forall k :: k in done ==> k in v.entries
    ensures EncodeEntries(v, done + [k]) == EncodeEntries(v, done) + EncodeBytes(k) + Encode(v.entries[k])
  {
    hide Encode, EncodeBytes;
    assert (done + [k])[..|done|] == done;
  }

  lemma DictForm(v: Value)
    requires v.Dict?
    ensures var keys := SortedKeys(v.entries.Keys);
            InKeyOrder(v, keys) && Encode(v) == [100] + EntriesFrom(v, keys, 0) + [101]
  {
    hide Encode, InKeyOrder, SortedKeys;
    WrittenForm(v);
  }

  lemma DictIs(before: Bytes, v: Value)
    requires v.Dict?
    ensures before + [CHAR_D] + EncodeEntries(v, SortedKeys(v.entries.Keys)) + [CHAR_E] == before + Encode(v)
  {
    hide EncodeEntries, SortedKeys;
    var body := EncodeEntries(v, SortedKeys(v.entries.Keys));
    Associate(before, [CHAR_D], body);
    Associate(before, [CHAR_D] + body, [CHAR_E]);
  }

  // `bencode_serialize_to_writer` to an empty writer.
  method ToBytes(v: Value) returns (b: Bytes)
    ensures b == Encode(v)
  {
    var ser := new BencodeSerializer(false);
    ser.Serialize(v);
    assert [] + Encode(v) == Encode(v);
    b := ser.writer;
  }

  // `compute_info_hash`: the writer is a hasher.
  method ComputeInfoHash(info: Value, sha1: Bytes -> FO.Digest) returns (h: FO.Digest)
    ensures h == sha1(Encode(info))
  {
    var b := ToBytes(info);
    h := sha1(b);
  }

  // Writing a torrent and reading it back, whatever bytes follow, gives the same torrent
  // and the info hash that was computed when it was created.
  method WriteThenRead(torrent: Value, trailing: Bytes, sha1: Bytes -> FO.Digest)
    returns (created: FO.Digest, read: Result<(Value, FO.Digest), Option<ParseError>>)
    requires Fits(torrent) && torrent.Dict? && [105, 110, 102, 111] in torrent.entries
    ensures read == Ok((torrent, created))
    ensures created == sha1(Encode(torrent.entries[[105, 110, 102, 111]]))
  {
    hide Encode, ParseValue, DigestValue;
    created := ComputeInfoHash(torrent.entries[INFO], sha1);
    var b := ToBytes(torrent);
    read := TorrentFromBytes(b + trailing, sha1);
    RoundTrip(torrent, trailing);
    DigestOfWritten(torrent, trailing, sha1);
  }
}
