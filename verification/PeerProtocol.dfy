// peer_binary_protocol/src/lib.rs: the messages of a peer connection and their bytes.
//
// Encoding computes its length prefix in u32 and wraps like a release build. What an
// extended message's payload means is not modelled: a predicate says which payloads decode.
module PeerProtocol {
  import opened Wrappers
  import opened FlatFiles

  const PREAMBLE_LEN: nat := 5
  const PIECE_MESSAGE_DEFAULT_LEN: nat := 16397

  const MSGID_CHOKE: byte := 0
  const MSGID_UNCHOKE: byte := 1
  const MSGID_INTERESTED: byte := 2
  const MSGID_NOT_INTERESTED: byte := 3
  const MSGID_HAVE: byte := 4
  const MSGID_BITFIELD: byte := 5
  const MSGID_REQUEST: byte := 6
  const MSGID_PIECE: byte := 7
  const MSGID_CANCEL: byte := 8
  const MSGID_EXTENDED: byte := 20

  datatype Message =
    | Request(index: u32, begin: u32, length: u32)
    | Cancel(index: u32, begin: u32, length: u32)
    | Bitfield(bits: Bytes)
    | KeepAlive
    | Have(piece: u32)
    | Choke
    | Unchoke
    | Interested
    | NotInterested
    | Piece(index: u32, begin: u32, block: Bytes)
    | Extended(payload: Bytes)

  datatype Deserialized =
    | Decoded(msg: Message, size: nat)
    | NotEnoughData(need: nat)
    | UnsupportedMessageId(id: byte)
    | IncorrectLenPrefix(received: u32, expected: u32)
    | OtherError

  // ---------------------------------------------------------------- big-endian u32

  function WriteU32(n: u32): (r: Bytes)
    ensures |r| == 4
  {
    [n / 16777216, n / 65536 % 256, n / 256 % 256, n % 256]
  }

  function ReadU32(b: Bytes): u32
    requires |b| >= 4
  {
    var b0: int, b1: int, b2: int, b3: int := b[0], b[1], b[2], b[3];
    b0 * 16777216 + b1 * 65536 + b2 * 256 + b3
  }

  lemma U32RoundTrip(n: u32, r: Bytes)
    ensures ReadU32(WriteU32(n) + r) == n
  {
    var a, b, c := n / 256, n / 65536, n / 16777216;
    assert a / 256 == b && b / 256 == c;
    assert n == a * 256 + n % 256 && a == b * 256 + a % 256 && b == c * 256 + b % 256;
  }

  // Four bytes are a number, the most significant one first.
  ghost predicate BigEndian(b: Bytes, n: nat) {
    && |b| == 4
    && var b0: int, b1: int, b2: int, b3: int := b[0], b[1], b[2], b[3];
       n == b0 * 0x100_0000 + b1 * 0x1_0000 + b2 * 0x100 + b3
  }

  lemma WrittenBigEndian(n: u32)
    ensures BigEndian(WriteU32(n), n)
  {
    U32RoundTrip(n, []);
    assert WriteU32(n) + [] == WriteU32(n);
  }

  function AsU32(n: nat): u32 { n % 0x1_0000_0000 }

  // ---------------------------------------------------------------- writing

  function LenPrefixAndMsgId(m: Message): (u32, byte) {
    match m
    case Request(_, _, _) => (13, MSGID_REQUEST)
    case Cancel(_, _, _) => (13, MSGID_REQUEST)
    case Bitfield(b) => (AsU32(1 + AsU32(|b|)), MSGID_BITFIELD)
    case Choke => (1, MSGID_CHOKE)
    case Unchoke => (1, MSGID_UNCHOKE)
    case Interested => (1, MSGID_INTERESTED)
    case NotInterested => (1, MSGID_NOT_INTERESTED)
    case Piece(_, _, block) => (AsU32(9 + AsU32(|block|)), MSGID_PIECE)
    case KeepAlive => (0, 0)
    case Have(_) => (5, MSGID_HAVE)
    case Extended(_) => (0, MSGID_EXTENDED)
  }

  function Triple(a: u32, b: u32, c: u32): (r: Bytes)
    ensures |r| == 12
  {
    WriteU32(a) + WriteU32(b) + WriteU32(c)
  }

  function Payload(m: Message): Bytes {
    match m
    case Request(a, b, c) => Triple(a, b, c)
    case Cancel(a, b, c) => Triple(a, b, c)
    case Bitfield(bits) => bits
    case Have(p) => WriteU32(p)
    case Piece(index, begin, block) => WriteU32(index) + WriteU32(begin) + block
    case Extended(payload) => payload
    case _ => []
  }

  function LenPrefix(m: Message): u32 {
    if m.Extended? then AsU32(|m.payload| + 1) else LenPrefixAndMsgId(m).0
  }

  // The bytes a message goes over the wire as.
  function Encode(m: Message): (r: Bytes)
    ensures |r| == if m.KeepAlive? then 4 else PREAMBLE_LEN + |Payload(m)|
  {
    if m.KeepAlive? then WriteU32(0)
    else WriteU32(LenPrefix(m)) + [LenPrefixAndMsgId(m).1] + Payload(m)
  }

  // `Vec::resize`.
  function Resize(out: Bytes, n: nat): (r: Bytes)
    ensures |r| == n
    ensures forall i :: 0 <= i < n && i < |out| ==> r[i] == out[i]
  {
    if n <= |out| then out[..n] else out + seq(n - |out|, i => 0)
  }

  // Overwrites bytes of the output buffer.
  function Put(out: Bytes, at: nat, data: Bytes): (r: Bytes)
    requires at + |data| <= |out|
    ensures |r| == |out|
  {
    Splice(out, at, data)
  }

  // The length prefix is the length of the rest, if and only if that fits a u32.
  lemma PrefixIsLength(m: Message)
    ensures BigEndian(Encode(m)[..4], |Encode(m)| - 4) <==> |Encode(m)| - 4 < 0x1_0000_0000
  {
    hide BigEndian, WriteU32, Payload;
    var prefix: u32 := if m.KeepAlive? then 0 else LenPrefix(m);
    assert Encode(m)[..4] == WriteU32(prefix);
    WrittenBigEndian(prefix);
    OneNumber(WriteU32(prefix), prefix, |Encode(m)| - 4);
    PrefixValue(m);
  }

  lemma OneNumber(b: Bytes, n: u32, k: nat)
    requires BigEndian(b, n)
    ensures BigEndian(b, k) <==> k == n
  {
  }

  lemma PrefixValue(m: Message)
    ensures m.KeepAlive? || (LenPrefix(m) == |Encode(m)| - 4 <==> |Encode(m)| - 4 < 0x1_0000_0000)
  {
    hide WriteU32;
    match m
    case Bitfield(bits) => PrefixFits(|bits|, 1);
    case Piece(_, _, block) => PrefixFits(|block|, 9);
    case Extended(payload) => PrefixFits(|payload|, 1);
    case _ =>
  }

  // The bytes of every message. A cancel goes out with the id of a request.
  lemma WireForm(m: Message)
    ensures var b := Encode(m);
            match m
            case KeepAlive => b == [0, 0, 0, 0]
            case Choke => b == [0, 0, 0, 1, 0]
            case Unchoke => b == [0, 0, 0, 1, 1]
            case Interested => b == [0, 0, 0, 1, 2]
            case NotInterested => b == [0, 0, 0, 1, 3]
            case Have(p) => |b| == 9 && b[..5] == [0, 0, 0, 5, 4] && BigEndian(b[5..9], p)
            case Request(i, begin, len) => |b| == 17 && b[..5] == [0, 0, 0, 13, 6] && IsTriple(b[5..], i, begin, len)
            case Cancel(i, begin, len) => |b| == 17 && b[..5] == [0, 0, 0, 13, 6] && IsTriple(b[5..], i, begin, len)
            case Bitfield(bits) => |b| >= 5 && b[4] == 5 && b[5..] == bits
            case Piece(i, begin, block) =>
              |b| >= 13 && b[4] == 7 && BigEndian(b[5..9], i) && BigEndian(b[9..13], begin) && b[13..] == block
            case Extended(payload) => |b| >= 5 && b[4] == 20 && b[5..] == payload
  {
    hide BigEndian, Encode, WriteU32, IsTriple;
    match m
    case Have(p) => HaveForm(p);
    case Request(i, begin, len) => TripleForm(m, i, begin, len);
    case Cancel(i, begin, len) => TripleForm(m, i, begin, len);
    case Piece(i, begin, block) => PieceForm(i, begin, block);
    case Bitfield(bits) => RestForm(m);
    case Extended(payload) => RestForm(m);
    case _ => ShortForm(m);
  }

  lemma ShortForm(m: Message)
    ensures m.KeepAlive? ==> Encode(m) == [0, 0, 0, 0]
    ensures m.Choke? ==> Encode(m) == [0, 0, 0, 1, 0]
    ensures m.Unchoke? ==> Encode(m) == [0, 0, 0, 1, 1]
    ensures m.Interested? ==> Encode(m) == [0, 0, 0, 1, 2]
    ensures m.NotInterested? ==> Encode(m) == [0, 0, 0, 1, 3]
  {
  }

  lemma RestForm(m: Message)
    requires m.Bitfield? || m.Extended?
    ensures |Encode(m)| >= 5 && Encode(m)[4] == (if m.Bitfield? then 5 else 20)
    ensures Encode(m)[5..] == if m.Bitfield? then m.bits else m.payload
  {
    hide WriteU32, LenPrefix;
  }

  lemma HaveForm(p: u32)
    ensures |Encode(Have(p))| == 9 && Encode(Have(p))[..5] == [0, 0, 0, 5, 4] && BigEndian(Encode(Have(p))[5..9], p)
  {
    hide BigEndian;
    WrittenBigEndian(p);
    assert WriteU32(5) == [0, 0, 0, 5];
    hide WriteU32;
    assert Encode(Have(p))[5..9] == WriteU32(p);
  }

  lemma PieceForm(i: u32, begin: u32, block: Bytes)
    ensures var b := Encode(Piece(i, begin, block));
            |b| >= 13 && b[4] == 7 && BigEndian(b[5..9], i) && BigEndian(b[9..13], begin) && b[13..] == block
  {
    hide BigEndian, WriteU32, LenPrefix;
    WrittenBigEndian(i);
    WrittenBigEndian(begin);
    var b := Encode(Piece(i, begin, block));
    assert b[5..9] == WriteU32(i) && b[9..13] == WriteU32(begin);
    assert b[13..] == block;
  }

  ghost predicate IsTriple(b: Bytes, i: u32, begin: u32, len: u32) {
    |b| == 12 && BigEndian(b[..4], i) && BigEndian(b[4..8], begin) && BigEndian(b[8..], len)
  }

  lemma TripleForm(m: Message, i: u32, begin: u32, len: u32)
    requires m == Request(i, begin, len) || m == Cancel(i, begin, len)
    ensures |Encode(m)| == 17 && Encode(m)[..5] == [0, 0, 0, 13, 6] && IsTriple(Encode(m)[5..], i, begin, len)
  {
    hide BigEndian;
    WrittenBigEndian(i);
    WrittenBigEndian(begin);
    WrittenBigEndian(len);
    assert WriteU32(13) == [0, 0, 0, 13];
    hide WriteU32;
    var t := Encode(m)[5..];
    assert t == WriteU32(i) + WriteU32(begin) + WriteU32(len);
    assert t[..4] == WriteU32(i) && t[4..8] == WriteU32(begin) && t[8..] == WriteU32(len);
  }

  // Resizing to the length of a message and writing its payload appends the payload.
  lemma PayloadPut(head: Bytes, payload: Bytes)
    requires |head| == PREAMBLE_LEN
    ensures Put(Resize(head, PREAMBLE_LEN + |payload|), PREAMBLE_LEN, payload) == head + payload
  {
  }

  lemma PayloadsPut(out: Bytes, at: nat, a: Bytes, b: Bytes, c: Bytes)
    requires at + |a| + |b| + |c| == |out|
    ensures Put(Put(Put(out, at, a), at + |a|, b), at + |a| + |b|, c) == out[..at] + a + b + c
  {
    SpliceTwice(out, at, a + b, |a|, |b|);
    SpliceTwice(out, at, a + b + c, |a + b|, |c|);
    assert (a + b)[..|a|] == a && (a + b)[|a|..|a| + |b|] == b && (a + b)[..|a| + |b|] == a + b;
    assert (a + b + c)[..|a + b|] == a + b && (a + b + c)[|a + b|..|a + b| + |c|] == c;
    assert (a + b + c)[..|a + b| + |c|] == a + b + c;
    assert out[at + |a + b + c|..] == [];
    assert out[..at] + (a + b + c) + [] == out[..at] + a + b + c;
  }

  lemma Head(buffer: Bytes, prefix: Bytes, id: byte)
    requires |prefix| == 4
    ensures Put(Put(Resize(buffer, PREAMBLE_LEN), 0, prefix), 4, [id]) == prefix + [id]
  {
  }

  lemma HeadRewritten(head: Bytes, prefix: Bytes, id: byte, payload: Bytes, prefix': Bytes)
    requires |prefix| == |prefix'| == 4 && head == prefix + [id]
    ensures Put(head + payload, 0, prefix') == prefix' + [id] + payload
  {
  }

  lemma Whole(m: Message)
    requires !m.KeepAlive? && !m.Extended?
    ensures Encode(m) == (WriteU32(LenPrefixAndMsgId(m).0) + [LenPrefixAndMsgId(m).1]) + Payload(m)
  {
    hide WriteU32, Payload, LenPrefixAndMsgId;
  }

  // `serialize`, into a buffer that may hold anything: the first n bytes of what it leaves
  // are the message.
  method Serialize(m: Message, buffer: Bytes) returns (out: Bytes, n: nat)
    ensures n <= |out| && out[..n] == Encode(m)
    ensures 4 <= n && (BigEndian(out[..4], n - 4) <==> n - 4 < 0x1_0000_0000)
  {
    hide WriteU32, Put, Resize, Encode, Triple, BigEndian;
    var (lp, msgId) := LenPrefixAndMsgId(m);
    out := Resize(buffer, PREAMBLE_LEN);
    out := Put(out, 0, WriteU32(lp));
    out := Put(out, 4, [msgId]);
    Head(buffer, WriteU32(lp), msgId);
    ghost var head := out;
    if !m.KeepAlive? && !m.Extended? {
      Whole(m);
      PayloadPut(head, Payload(m));
    }
    match m {
      case Request(a, b, c) =>
        out := Put(Resize(out, PREAMBLE_LEN + 12), PREAMBLE_LEN, Triple(a, b, c));
        n := PREAMBLE_LEN + 12;
      case Cancel(a, b, c) =>
        out := Put(Resize(out, PREAMBLE_LEN + 12), PREAMBLE_LEN, Triple(a, b, c));
        n := PREAMBLE_LEN + 12;
      case Bitfield(bits) =>
        n := PREAMBLE_LEN + |bits|;
        out := Put(Resize(out, n), PREAMBLE_LEN, bits);
      case KeepAlive =>
        n := 4;
        KeepAliveHead();
      case Have(p) =>
        n := PREAMBLE_LEN + 4;
        out := Put(Resize(out, n), PREAMBLE_LEN, WriteU32(p));
      case Piece(index, begin, block) =>
        n := PREAMBLE_LEN + 8 + |block|;
        out := Resize(out, n);
        PayloadsPut(out, PREAMBLE_LEN, WriteU32(index), WriteU32(begin), block);
        assert out[..PREAMBLE_LEN] == head;
        out := Put(out, PREAMBLE_LEN, WriteU32(index));
        out := Put(out, PREAMBLE_LEN + 4, WriteU32(begin));
        out := Put(out, PREAMBLE_LEN + 8, block);
        assert head + WriteU32(index) + WriteU32(begin) + block == head + (WriteU32(index) + WriteU32(begin) + block);
      case Extended(payload) =>
        out := out + payload;
        n := |out|;
        out := Put(out, 0, WriteU32(AsU32(n - PREAMBLE_LEN + 1)));
        ExtendedWhole(payload, head);
      case Choke => n := PREAMBLE_LEN;
      case Unchoke => n := PREAMBLE_LEN;
      case Interested => n := PREAMBLE_LEN;
      case NotInterested => n := PREAMBLE_LEN;
    }
    PrefixOfSent(m, out, n);
  }

  lemma PrefixOfSent(m: Message, out: Bytes, n: nat)
    requires n <= |out| && out[..n] == Encode(m)
    ensures 4 <= n && (BigEndian(out[..4], n - 4) <==> n - 4 < 0x1_0000_0000)
  {
    PrefixIsLength(m);
    assert out[..n][..4] == out[..4];
  }

  lemma KeepAliveHead()
    ensures Encode(KeepAlive) == WriteU32(0)
  {
  }

  lemma ExtendedWhole(payload: Bytes, head: Bytes)
    requires head == WriteU32(0) + [MSGID_EXTENDED]
    ensures Put(head + payload, 0, WriteU32(AsU32(|payload| + 1))) == Encode(Extended(payload))
  {
    hide WriteU32, Put;
    HeadRewritten(head, WriteU32(0), MSGID_EXTENDED, payload, WriteU32(AsU32(|payload| + 1)));
  }

  // ---------------------------------------------------------------- reading

  function Exactly(prefix: u32, expected: u32, m: Message): Deserialized {
    if prefix != expected then IncorrectLenPrefix(prefix, expected) else Decoded(m, PREAMBLE_LEN)
  }

  function Deserialize(buf: Bytes, decodable: Bytes -> bool): Deserialized {
    if |buf| < 4 then NotEnoughData(4)
    else
      var prefix := ReadU32(buf);
      if prefix == 0 then Decoded(KeepAlive, 4)
      else if |buf| < 5 then NotEnoughData(1)
      else DeserializeBody(prefix, buf[4], buf[5..], decodable)
  }

  function DeserializeBody(prefix: u32, id: byte, rest: Bytes, decodable: Bytes -> bool): Deserialized {
    if id == MSGID_CHOKE then Exactly(prefix, 1, Choke)
    else if id == MSGID_UNCHOKE then Exactly(prefix, 1, Unchoke)
    else if id == MSGID_INTERESTED then Exactly(prefix, 1, Interested)
    else if id == MSGID_NOT_INTERESTED then Exactly(prefix, 1, NotInterested)
    else if id == MSGID_HAVE then
      if |rest| >= 4 then Decoded(Have(ReadU32(rest)), PREAMBLE_LEN + 4) else NotEnoughData(4 - |rest|)
    else if id == MSGID_BITFIELD then
      if prefix <= 1 then IncorrectLenPrefix(prefix, 2)
      else if |rest| >= prefix - 1 then Decoded(Bitfield(rest[..prefix - 1]), PREAMBLE_LEN + (prefix - 1))
      else NotEnoughData(prefix - 1 - |rest|)
    else if id == MSGID_REQUEST || id == MSGID_CANCEL then
      if |rest| >= 12 then
        var a, b, c := ReadU32(rest), ReadU32(rest[4..]), ReadU32(rest[8..]);
        Decoded(if id == MSGID_REQUEST then Request(a, b, c) else Cancel(a, b, c), PREAMBLE_LEN + 12)
      else NotEnoughData(12 - |rest|)
    else if id == MSGID_PIECE then
      if prefix <= 9 then IncorrectLenPrefix(prefix, 10)
      else if |rest| >= prefix - 1 then
        Decoded(Piece(ReadU32(rest), ReadU32(rest[4..]), rest[8..prefix - 1]), PREAMBLE_LEN + (prefix - 1))
      else NotEnoughData(prefix - 1 - |rest|)
    else if id == MSGID_EXTENDED then
      if prefix <= 6 then IncorrectLenPrefix(prefix, 6)
      else if |rest| >= prefix - 1 then
        if !decodable(rest[..prefix - 1]) then OtherError
        else Decoded(Extended(rest[..prefix - 1]), PREAMBLE_LEN + (prefix - 1))
      else NotEnoughData(prefix - 1 - |rest|)
    else UnsupportedMessageId(id)
  }

  // ---------------------------------------------------------------- the partner lemmas

  // The messages that survive the trip: a cancel is written as a request, an empty
  // bitfield or block is refused, and so is an extended payload of fewer than six bytes.
  predicate Survives(m: Message, decodable: Bytes -> bool) {
    match m
    case Cancel(_, _, _) => false
    case Bitfield(bits) => 0 < |bits| && 1 + |bits| < U32_LIMIT
    case Piece(_, _, block) => 0 < |block| && 9 + |block| < U32_LIMIT
    case Extended(payload) => 6 <= |payload| && 1 + |payload| < U32_LIMIT && decodable(payload)
    case _ => true
  }

  lemma RoundTripIff(m: Message, r: Bytes, decodable: Bytes -> bool)
    ensures Deserialize(Encode(m) + r, decodable) == Decoded(m, |Encode(m)|) <==> Survives(m, decodable)
  {
    if m.KeepAlive? {
      U32RoundTrip(0, r);
      return;
    }
    hide WriteU32, ReadU32;
    Framed(m, r, decodable);
    hide Deserialize, Encode, LenPrefix;
    match m
    case Request(a, b, c) => TripleRoundTrip(a, b, c, r);
    case Cancel(a, b, c) => TripleRoundTrip(a, b, c, r);
    case Have(p) => U32RoundTrip(p, r);
    case Bitfield(bits) => BitfieldBody(bits, r, decodable);
    case Piece(index, begin, block) => PieceBody(index, begin, block, r, decodable);
    case Extended(p) => ExtendedBody(p, r, decodable);
    case Choke => assert LenPrefix(m) == 1 by { SmallPrefix(m); }
    case Unchoke => assert LenPrefix(m) == 1 by { SmallPrefix(m); }
    case Interested => assert LenPrefix(m) == 1 by { SmallPrefix(m); }
    case NotInterested => assert LenPrefix(m) == 1 by { SmallPrefix(m); }
  }

  lemma SmallPrefix(m: Message)
    requires m.Choke? || m.Unchoke? || m.Interested? || m.NotInterested?
    ensures LenPrefix(m) == 1
  {
  }

  // A written message comes apart into its prefix, its id and its payload; one whose
  // wrapped prefix is zero reads as a keep-alive.
  lemma Framed(m: Message, r: Bytes, decodable: Bytes -> bool)
    requires !m.KeepAlive?
    ensures var id := LenPrefixAndMsgId(m).1;
            && Deserialize(Encode(m) + r, decodable) ==
               (if LenPrefix(m) == 0 then Decoded(KeepAlive, 4)
                else DeserializeBody(LenPrefix(m), id, Payload(m) + r, decodable))
  {
    hide WriteU32, ReadU32, LenPrefix, Payload, LenPrefixAndMsgId, DeserializeBody;
    var buf := Encode(m) + r;
    var prefix, id, payload := LenPrefix(m), LenPrefixAndMsgId(m).1, Payload(m);
    assert buf == WriteU32(prefix) + ([id] + payload + r);
    U32RoundTrip(prefix, [id] + payload + r);
    assert buf[4] == id && buf[5..] == payload + r;
  }

  lemma TripleRoundTrip(a: u32, b: u32, c: u32, r: Bytes)
    ensures var t := Triple(a, b, c) + r; ReadU32(t) == a && ReadU32(t[4..]) == b && ReadU32(t[8..]) == c
  {
    var t := Triple(a, b, c) + r;
    assert t == WriteU32(a) + (WriteU32(b) + WriteU32(c) + r);
    assert t[4..] == WriteU32(b) + (WriteU32(c) + r);
    assert t[8..] == WriteU32(c) + r;
    U32RoundTrip(a, WriteU32(b) + WriteU32(c) + r);
    U32RoundTrip(b, WriteU32(c) + r);
    U32RoundTrip(c, r);
  }

  lemma PrefixFits(len: nat, extra: nat)
    requires 0 < extra <= 9
    ensures len + extra < U32_LIMIT ==> AsU32(extra + AsU32(len)) == extra + len
    ensures len + extra >= U32_LIMIT ==> AsU32(extra + AsU32(len)) < extra + len
    ensures AsU32(len + 1) == AsU32(1 + AsU32(len))
  {
  }

  lemma BitfieldBody(bits: Bytes, r: Bytes, decodable: Bytes -> bool)
    ensures DeserializeBody(LenPrefix(Bitfield(bits)), MSGID_BITFIELD, bits + r, decodable) ==
              Decoded(Bitfield(bits), PREAMBLE_LEN + |bits|)
            <==> Survives(Bitfield(bits), decodable)
  {
    PrefixFits(|bits|, 1);
    assert (bits + r)[..|bits|] == bits;
  }

  lemma ExtendedBody(p: Bytes, r: Bytes, decodable: Bytes -> bool)
    ensures DeserializeBody(LenPrefix(Extended(p)), MSGID_EXTENDED, p + r, decodable) ==
              Decoded(Extended(p), PREAMBLE_LEN + |p|)
            <==> Survives(Extended(p), decodable)
  {
    PrefixFits(|p|, 1);
    assert (p + r)[..|p|] == p;
  }

  lemma PieceBody(index: u32, begin: u32, block: Bytes, r: Bytes, decodable: Bytes -> bool)
    ensures var m := Piece(index, begin, block);
            DeserializeBody(LenPrefix(m), MSGID_PIECE, Payload(m) + r, decodable) ==
              Decoded(m, PREAMBLE_LEN + |Payload(m)|)
            <==> Survives(m, decodable)
  {
    var body := Payload(Piece(index, begin, block)) + r;
    PrefixFits(|block|, 9);
    assert body == WriteU32(index) + (WriteU32(begin) + block + r);
    assert body[4..] == WriteU32(begin) + (block + r);
    U32RoundTrip(index, WriteU32(begin) + block + r);
    U32RoundTrip(begin, block + r);
    assert body[8..8 + |block|] == block;
  }

  // Which buffers are read as a message, and as how many bytes of them. Only for the five
  // kinds without fields of their own or with a variable part is the prefix looked at.
  lemma ReadIff(buf: Bytes, m: Message, size: nat, decodable: Bytes -> bool)
    ensures Deserialize(buf, decodable) == Decoded(m, size) <==>
            && |buf| >= size >= 4
            && exists n: u32 :: BigEndian(buf[..4], n) && IsMessage(buf[..size], n, m, decodable)
  {
    hide BigEndian;
    if |buf| >= 4 {
      ReadBigEndian(buf);
      forall n: u32 | BigEndian(buf[..4], n) ensures n == ReadU32(buf) { OneNumber(buf[..4], ReadU32(buf), n); }
    }
    if |buf| >= size >= 4 {
      ReadBody(buf, m, size, decodable);
    }
  }

  lemma ReadBigEndian(buf: Bytes)
    requires |buf| >= 4
    ensures BigEndian(buf[..4], ReadU32(buf))
  {
  }

  lemma ReadField(b: Bytes, at: nat, k: u32)
    requires at + 4 <= |b|
    ensures BigEndian(b[at..at + 4], k) <==> ReadU32(b[at..]) == k
  {
  }

  lemma ReadBody(buf: Bytes, m: Message, size: nat, decodable: Bytes -> bool)
    requires |buf| >= size >= 4
    ensures Deserialize(buf, decodable) == Decoded(m, size) <==> IsMessage(buf[..size], ReadU32(buf), m, decodable)
  {
    hide BigEndian, ReadU32;
    if |buf| >= 5 && ReadU32(buf) != 0 {
      ReadRest(ReadU32(buf), buf[4], buf[5..], m, size, decodable);
      if size >= 5 { assert buf[..size] == buf[..4] + [buf[4]] + buf[5..][..size - 5]; }
    }
  }

  lemma ReadRest(n: u32, id: byte, rest: Bytes, m: Message, size: nat, decodable: Bytes -> bool)
    requires n > 0 && 4 <= size <= |rest| + 5
    ensures DeserializeBody(n, id, rest, decodable) == Decoded(m, size) <==>
            size >= 5 && RestIs(n, id, rest[..size - 5], m, decodable)
  {
    hide BigEndian, ReadU32;
    if size >= 5 { FieldsRead(rest, m, size - 5); }
  }

  // The fields of a message of fixed fields, read from a buffer that may go on.
  lemma FieldsRead(rest: Bytes, m: Message, n: nat)
    requires n <= |rest|
    ensures match m
            case Have(p) => n == 4 ==> (BigEndian(rest[..n], p) <==> ReadU32(rest) == p)
            case Request(i, begin, len) => n == 12 ==>
              (IsTriple(rest[..n], i, begin, len) <==> FieldsAre(rest, i, begin, len))
            case Cancel(i, begin, len) => n == 12 ==>
              (IsTriple(rest[..n], i, begin, len) <==> FieldsAre(rest, i, begin, len))
            case Piece(i, begin, block) => n >= 8 ==>
              (BigEndian(rest[..n][..4], i) && BigEndian(rest[..n][4..8], begin) <==>
               ReadU32(rest) == i && ReadU32(rest[4..]) == begin)
              && rest[..n][8..] == rest[8..n]
            case _ => true
  {
    hide BigEndian, ReadU32;
    match m
    case Have(p) =>
      if n == 4 {
        ReadFields(rest, n, 0, p);
        assert rest[..n][..4] == rest[..n];
      }
    case Request(i, begin, len) => if n == 12 { TripleRead(rest, i, begin, len); }
    case Cancel(i, begin, len) => if n == 12 { TripleRead(rest, i, begin, len); }
    case Piece(i, begin, block) =>
      if n >= 8 {
        ReadFields(rest, n, 0, i);
        ReadFields(rest, n, 4, begin);
      }
    case _ =>
  }

  predicate FieldsAre(rest: Bytes, i: u32, begin: u32, len: u32)
    requires |rest| >= 12
  {
    ReadU32(rest) == i && ReadU32(rest[4..]) == begin && ReadU32(rest[8..]) == len
  }

  lemma ReadFields(rest: Bytes, n: nat, at: nat, k: u32)
    requires at + 4 <= n <= |rest|
    ensures BigEndian(rest[..n][at..at + 4], k) <==> ReadU32(rest[at..]) == k
    ensures at == 0 ==> rest[at..] == rest && rest[..n][at..at + 4] == rest[..n][..4]
  {
    assert rest[..n][at..at + 4] == rest[at..at + 4];
    ReadField(rest, at, k);
  }

  lemma TripleRead(rest: Bytes, i: u32, begin: u32, len: u32)
    requires |rest| >= 12
    ensures IsTriple(rest[..12], i, begin, len) <==> FieldsAre(rest, i, begin, len)
  {
    hide BigEndian, ReadU32;
    ReadFields(rest, 12, 0, i);
    ReadFields(rest, 12, 4, begin);
    ReadFields(rest, 12, 8, len);
    assert rest[..12][8..] == rest[..12][8..12];
  }

  // The whole of a buffer of prefix n is one message.
  ghost predicate IsMessage(b: Bytes, n: u32, m: Message, decodable: Bytes -> bool) {
    if n == 0 then m == KeepAlive && |b| == 4 else |b| >= 5 && RestIs(n, b[4], b[5..], m, decodable)
  }

  ghost predicate RestIs(n: u32, id: byte, b: Bytes, m: Message, decodable: Bytes -> bool) {
    match m
    case KeepAlive => false
    case Choke => id == 0 && n == 1 && b == []
    case Unchoke => id == 1 && n == 1 && b == []
    case Interested => id == 2 && n == 1 && b == []
    case NotInterested => id == 3 && n == 1 && b == []
    case Have(p) => id == 4 && |b| == 4 && BigEndian(b, p)
    case Bitfield(bits) => id == 5 && n > 1 && |b| == n - 1 && b == bits
    case Request(i, begin, len) => id == 6 && IsTriple(b, i, begin, len)
    case Piece(i, begin, block) =>
      id == 7 && n > 9 && |b| == n - 1 && BigEndian(b[..4], i) && BigEndian(b[4..8], begin) && b[8..] == block
    case Cancel(i, begin, len) => id == 8 && IsTriple(b, i, begin, len)
    case Extended(p) => id == 20 && n > 6 && |b| == n - 1 && b == p && decodable(p)
  }

  // Which buffers are refused: those of an id there is no message for, and those whose prefix
  // is not 1 for the four kinds without payload, or too small for the three with a variable one.
  lemma RefusedIff(buf: Bytes, n: u32, expected: u32, id: byte, decodable: Bytes -> bool)
    requires |buf| >= 5 && BigEndian(buf[..4], n) && id == buf[4]
    ensures Deserialize(buf, decodable) == UnsupportedMessageId(id) <==> n != 0 && id != 20 && id > 8
    ensures Deserialize(buf, decodable) == IncorrectLenPrefix(n, expected) <==>
            || (n > 1 && id <= 3 && expected == 1)
            || (n == 1 && id == 5 && expected == 2)
            || (0 < n <= 9 && id == 7 && expected == 10)
            || (0 < n <= 6 && id == 20 && expected == 6)
    ensures Deserialize(buf, decodable) == OtherError <==>
            n > 6 && id == 20 && |buf| >= 4 + n && !decodable(buf[5..4 + n])
  {
    hide BigEndian;
    ReadBigEndian(buf);
    OneNumber(buf[..4], ReadU32(buf), n);
    hide ReadU32;
    if n > 0 && |buf| >= 4 + n { assert buf[5..][..n - 1] == buf[5..4 + n]; }
  }

  // A verdict on a buffer is the verdict on everything that begins with it, unless it is
  // that more data is needed; and then at least one byte is.
  lemma VerdictIsFinal(buf: Bytes, more: Bytes, decodable: Bytes -> bool)
    ensures var d := Deserialize(buf, decodable);
            && (d.NotEnoughData? ==> d.need > 0)
            && (!d.NotEnoughData? ==> Deserialize(buf + more, decodable) == d)
            && (d.Decoded? ==> 0 < d.size <= |buf|)
  {
    if |buf| >= 4 {
      assert ReadU32(buf + more) == ReadU32(buf);
      if |buf| >= 5 {
        assert (buf + more)[4] == buf[4] && (buf + more)[5..] == buf[5..] + more;
        BodyVerdictIsFinal(ReadU32(buf), buf[4], buf[5..], more, decodable);
      }
    }
  }

  lemma BodyVerdictIsFinal(prefix: u32, id: byte, rest: Bytes, more: Bytes, decodable: Bytes -> bool)
    ensures var d := DeserializeBody(prefix, id, rest, decodable);
            && (d.NotEnoughData? ==> d.need > 0)
            && (!d.NotEnoughData? ==> DeserializeBody(prefix, id, rest + more, decodable) == d)
            && (d.Decoded? ==> d.size <= PREAMBLE_LEN + |rest|)
  {
    var all := rest + more;
    if id == MSGID_HAVE && |rest| >= 4 {
      assert ReadU32(all) == ReadU32(rest);
    } else if (id == MSGID_REQUEST || id == MSGID_CANCEL) && |rest| >= 12 {
      ReadsAgree(rest, more, 0);
      ReadsAgree(rest, more, 4);
      ReadsAgree(rest, more, 8);
      assert all[0..] == all && rest[0..] == rest;
    } else if prefix > 1 && |rest| >= prefix - 1 {
      assert all[..prefix - 1] == rest[..prefix - 1];
      if prefix > 9 {
        assert all[8..prefix - 1] == rest[8..prefix - 1];
        ReadsAgree(rest, more, 0);
        ReadsAgree(rest, more, 4);
        assert all[0..] == all && rest[0..] == rest;
      }
    }
  }

  lemma ReadsAgree(rest: Bytes, more: Bytes, at: nat)
    requires at + 4 <= |rest|
    ensures ReadU32((rest + more)[at..]) == ReadU32(rest[at..])
  {
  }

  // Once the length and the id are there, the number of bytes asked for is exactly the
  // number missing: with fewer the verdict stays open, with as many it is final. Before
  // that, asking for four or one never stops short of a whole message.
  lemma NeedIsExact(buf: Bytes, more: Bytes, decodable: Bytes -> bool)
    requires Deserialize(buf, decodable).NotEnoughData?
    ensures |buf| >= 5 ==>
              (Deserialize(buf + more, decodable).NotEnoughData? <==> |more| < Deserialize(buf, decodable).need)
    ensures |buf| < 5 ==> Deserialize(buf, decodable).need == if |buf| < 4 then 4 else 1
  {
    if |buf| >= 5 {
      assert ReadU32(buf + more) == ReadU32(buf);
      assert (buf + more)[4] == buf[4] && (buf + more)[5..] == buf[5..] + more;
    }
  }

  // ---------------------------------------------------------------- handshake

  // "BitTorrent protocol"
  const PSTR: Bytes := [66, 105, 116, 84, 111, 114, 114, 101, 110, 116, 32, 112, 114, 111, 116, 111, 99, 111, 108]
  const HANDSHAKE_LEN: nat := 68

  datatype Handshake = Handshake(reserved: Bytes, infoHash: Bytes, peerId: Bytes)

  predicate HandshakeOk(h: Handshake) { |h.reserved| == 8 && |h.infoHash| == 20 && |h.peerId| == 20 }

  function EncodeHandshake(h: Handshake): Bytes { [19] + PSTR + h.reserved + h.infoHash + h.peerId }

  datatype HandshakeError = ShortHandshake | WrongPstr

  function DeserializeHandshake(b: Bytes): (r: Result<Handshake, HandshakeError>)
    ensures r.Ok? ==> HandshakeOk(r.value)
  {
    if b == [] then Err(ShortHandshake)
    else if b[0] != 19 then Err(WrongPstr)
    else if |b| < HANDSHAKE_LEN then Err(ShortHandshake)
    else if b[1..20] != PSTR then Err(WrongPstr)
    else Ok(Handshake(b[20..28], b[28..48], b[48..68]))
  }

  // Exactly the written handshakes are accepted, and read as themselves.
  lemma HandshakeRoundTrip(b: Bytes, h: Handshake)
    requires |h.reserved| == 8 && |h.infoHash| == 20 && |h.peerId| == 20
    ensures DeserializeHandshake(b) == Ok(h) <==>
            && |b| >= 68
            && b[..20] == [19, 66, 105, 116, 84, 111, 114, 114, 101, 110, 116, 32, 112, 114, 111, 116, 111, 99, 111,
                           108]
            && b[20..28] == h.reserved && b[28..48] == h.infoHash && b[48..68] == h.peerId
    ensures DeserializeHandshake(b) == Ok(h) <==> |b| >= HANDSHAKE_LEN && b[..HANDSHAKE_LEN] == EncodeHandshake(h)
  {
    if |b| >= HANDSHAKE_LEN {
      var f := b[..HANDSHAKE_LEN];
      assert b[..20] == [b[0]] + b[1..20];
      assert f == [f[0]] + f[1..20] + f[20..28] + f[28..48] + f[48..68];
      assert b[1..20] == f[1..20] && b[20..28] == f[20..28] && b[28..48] == f[28..48] && b[48..68] == f[48..68];
      if f == EncodeHandshake(h) {
        assert f[1..20] == PSTR && f[20..28] == h.reserved && f[28..48] == h.infoHash && f[48..68] == h.peerId;
      }
    }
  }
}
