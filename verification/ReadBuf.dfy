// read_buf.rs: the buffer that peer messages are cut out of.
module ReadBuf {
  import opened Wrappers
  import opened FlatFiles
  import opened PeerProtocol

  // The other end of a connection: everything it will ever send, handed out in reads of
  // whatever sizes.
  class Conn {
    var incoming: Bytes

    constructor (incoming: Bytes)
      ensures this.incoming == incoming
    {
      this.incoming := incoming;
    }

    // Reads into the free part of a buffer; nothing is read only at the end of the stream.
    method Read(buf: array<byte>, from: nat) returns (size: nat)
      requires from < buf.Length
      modifies this, buf
      ensures size <= |old(incoming)| && from + size <= buf.Length
      ensures size == 0 <==> old(incoming) == []
      ensures incoming == old(incoming)[size..]
      ensures buf[..from] == old(buf[..from])
      ensures buf[from..from + size] == old(incoming)[..size]
    {
      if incoming == [] { return 0; }
      size :| 0 < size <= |incoming| && from + size <= buf.Length;
      var i := 0;
      while i < size
        invariant 0 <= i <= size && incoming == old(incoming)
        invariant buf[..from] == old(buf[..from])
        invariant buf[from..from + i] == incoming[..i]
      {
        buf[from + i] := incoming[i];
        i := i + 1;
      }
      incoming := incoming[size..];
    }
  }

  datatype ReadError = Disconnected | Malformed(verdict: Deserialized)

  // What reading one message from a stream gives.
  function MessageOf(d: Deserialized): Result<Message, ReadError> {
    if d.Decoded? then Ok(d.msg)
    else if d.NotEnoughData? then Err(Disconnected)
    else Err(Malformed(d))
  }

  class Buffer {
    var buf: array<byte>
    var filled: nat
    var processed: nat

    ghost predicate Valid()
      reads this
    {
      processed <= filled <= buf.Length
    }

    // The bytes that were received but not parsed.
    ghost function Pending(): Bytes
      requires Valid()
      reads this, buf
    {
      buf[processed..filled]
    }

    constructor ()
      ensures Valid() && filled == 0 && processed == 0
      ensures fresh(buf) && buf.Length == 2 * PIECE_MESSAGE_DEFAULT_LEN
    {
      buf := new byte[2 * PIECE_MESSAGE_DEFAULT_LEN](i => 0);
      filled, processed := 0, 0;
    }

    // Moves the pending bytes to the front and makes room for as many more as are missing.
    method PrepareForRead(needAdditionalBytes: nat)
      requires Valid()
      modifies this, buf
      ensures Valid() && processed == 0 && (buf == old(buf) || fresh(buf))
      ensures filled + needAdditionalBytes <= buf.Length
      ensures Pending() == old(Pending())
    {
      ghost var pending := Pending();
      if processed > 0 {
        if filled > processed { CopyWithin(); }
        filled := filled - processed;
        processed := 0;
      }
      assert buf[..filled] == pending;
      if buf.Length < filled + needAdditionalBytes {
        Grow(needAdditionalBytes);
      }
    }

    // `copy_within(processed..filled, 0)`.
    method CopyWithin()
      requires Valid()
      modifies buf
      ensures buf[..filled - processed] == old(buf[processed..filled])
    {
      ghost var was := buf[..];
      var i := 0;
      while i < filled - processed
        invariant 0 <= i <= filled - processed
        invariant forall k :: 0 <= k < i ==> buf[k] == was[processed + k]
        invariant forall k :: processed + i <= k < filled ==> buf[k] == was[k]
      {
        buf[i] := buf[processed + i];
        i := i + 1;
      }
    }

    // `reserve` gives any capacity that has room, and `resize` fills it with zeros.
    method Grow(needAdditionalBytes: nat)
      requires Valid()
      modifies this
      ensures filled == old(filled) && processed == old(processed)
      ensures fresh(buf) && buf.Length >= old(buf.Length) + needAdditionalBytes
      ensures buf[..old(buf.Length)] == old(buf[..])
    {
      var capacity: nat :| capacity >= buf.Length + needAdditionalBytes;
      var grown := new byte[capacity](i requires 0 <= i reads this, buf => if i < buf.Length then buf[i] else 0);
      assert grown[..buf.Length] == buf[..];
      buf := grown;
    }

    // One read, after the pending bytes.
    method Receive(conn: Conn, need: nat) returns (size: nat)
      requires Valid() && need > 0
      modifies this, buf, conn
      ensures Valid() && (buf == old(buf) || fresh(buf))
      ensures Pending() + conn.incoming == old(Pending() + conn.incoming)
      ensures size == 0 <==> old(conn.incoming) == []
      ensures |conn.incoming| == |old(conn.incoming)| - size
    {
      ghost var pending, incoming := Pending(), conn.incoming;
      PrepareForRead(need);
      size := conn.Read(buf, filled);
      filled := filled + size;
      assert buf[..filled - size] == pending;
      assert Pending() == buf[..filled - size] + buf[filled - size..filled];
      Received(pending, incoming, size, Pending());
    }

    // One message: the verdict on the whole stream of pending and incoming bytes, however
    // it is cut into reads. What it used up is the message's bytes and nothing else.
    method ReadMessage(conn: Conn, decodable: Bytes -> bool) returns (r: Result<Message, ReadError>)
      requires Valid()
      modifies this, buf, conn
      ensures Valid() && (buf == old(buf) || fresh(buf))
      ensures var stream := old(Pending() + conn.incoming);
              var d := Deserialize(stream, decodable);
              && r == MessageOf(d)
              && (d.Decoded? ==> d.size <= |stream| && Pending() + conn.incoming == stream[d.size..])
              && (!d.Decoded? ==> Pending() + conn.incoming == stream)
    {
      hide Deserialize;
      ghost var stream := Pending() + conn.incoming;
      while true
        invariant Valid() && (buf == old(buf) || fresh(buf))
        invariant Pending() + conn.incoming == stream
        decreases |conn.incoming|
      {
        ghost var pending, incoming := Pending(), conn.incoming;
        var verdict := Deserialize(buf[processed..filled], decodable);
        VerdictIsFinal(pending, incoming, decodable);
        if verdict.NotEnoughData? {
          var size := Receive(conn, verdict.need);
          if size == 0 {
            assert pending + [] == pending;
            return Err(Disconnected);
          }
        } else if verdict.Decoded? {
          processed := processed + verdict.size;
          DropFront(pending, incoming, verdict.size);
          return Ok(verdict.msg);
        } else {
          return Err(Malformed(verdict));
        }
      }
    }

    // The handshake is what one read brings: it is accepted only if all of it came at once.
    method ReadHandshake(conn: Conn) returns (r: Result<Handshake, Option<HandshakeError>>, ghost size: nat)
      requires Valid() && filled == 0 && processed == 0 && buf.Length >= HANDSHAKE_LEN
      modifies this, buf, conn
      ensures Valid() && buf == old(buf)
      ensures size <= |old(conn.incoming)| && (size == 0 <==> old(conn.incoming) == [])
      ensures r.Err? && r.error.None? <==> size == 0
      ensures r.Ok? <==> DeserializeHandshake(old(conn.incoming)[..size]).Ok?
      ensures r.Ok? ==>
                && size >= HANDSHAKE_LEN
                && r.value == DeserializeHandshake(old(conn.incoming)).value
                && Pending() + conn.incoming == old(conn.incoming)[HANDSHAKE_LEN..]
    {
      var got := conn.Read(buf, 0);
      size := got;
      filled := got;
      if got == 0 { return Err(None), 0; }
      ghost var incoming := old(conn.incoming);
      assert buf[..filled] == incoming[..size] by { assert buf[0..0 + got] == buf[..got]; }
      var h := DeserializeHandshake(buf[..filled]);
      if h.Err? { return Err(Some(h.error)), got; }
      processed := HANDSHAKE_LEN;
      HandshakeRoundTrip(incoming[..size], h.value);
      HandshakeRoundTrip(incoming, h.value);
      assert incoming[..size][..HANDSHAKE_LEN] == incoming[..HANDSHAKE_LEN];
      assert incoming == incoming[..size] + incoming[size..];
      DropFront(incoming[..size], incoming[size..], HANDSHAKE_LEN);
      r := Ok(h.value);
    }
  }

  lemma Received(pending: Bytes, incoming: Bytes, size: nat, pending': Bytes)
    requires size <= |incoming|
    ensures pending' == pending + incoming[..size] ==> pending' + incoming[size..] == pending + incoming
  {
    assert incoming == incoming[..size] + incoming[size..];
  }

  lemma DropFront(pending: Bytes, incoming: Bytes, n: nat)
    requires n <= |pending|
    ensures (pending + incoming)[n..] == pending[n..] + incoming
  {
  }

  // ---------------------------------------------------------------- whole streams

  function EncodeAll(msgs: seq<Message>): Bytes {
    if msgs == [] then [] else Encode(msgs[0]) + EncodeAll(msgs[1..])
  }

  // A stream that starts with a message that survives reads as that message.
  lemma FirstMessage(msgs: seq<Message>, tail: Bytes, decodable: Bytes -> bool)
    requires msgs != [] && Survives(msgs[0], decodable)
    ensures Deserialize(EncodeAll(msgs) + tail, decodable) == Decoded(msgs[0], |Encode(msgs[0])|)
    ensures (EncodeAll(msgs) + tail)[|Encode(msgs[0])|..] == EncodeAll(msgs[1..]) + tail
  {
    RoundTripIff(msgs[0], EncodeAll(msgs[1..]) + tail, decodable);
    assert EncodeAll(msgs) + tail == Encode(msgs[0]) + (EncodeAll(msgs[1..]) + tail);
  }

  // Any sequence of messages that survive the trip, however their bytes are cut into
  // reads, is read message by message; then the peer is found disconnected.
  method ReadAll(b: Buffer, conn: Conn, ghost msgs: seq<Message>, decodable: Bytes -> bool)
    returns (read: seq<Message>, last: ReadError)
    requires b.Valid() && b.Pending() + conn.incoming == EncodeAll(msgs)
    requires forall i :: 0 <= i < |msgs| ==> Survives(msgs[i], decodable)
    modifies b, b.buf, conn
    ensures read == msgs && last == Disconnected
    ensures b.Valid() && b.Pending() == [] && conn.incoming == []
  {
    hide Deserialize, Encode, EncodeAll, Survives;
    read := [];
    ghost var rest := msgs;
    while true
      invariant b.Valid() && (b.buf == old(b.buf) || fresh(b.buf))
      invariant read + rest == msgs
      invariant b.Pending() + conn.incoming == EncodeAll(rest)
      decreases |rest|
    {
      if rest == [] {
        NothingLeft(decodable);
      } else {
        assert rest[0] == msgs[|read|];
        FirstMessage(rest, [], decodable);
        assert EncodeAll(rest) + [] == EncodeAll(rest) && EncodeAll(rest[1..]) + [] == EncodeAll(rest[1..]);
      }
      var r := b.ReadMessage(conn, decodable);
      if r.Err? { return read, r.error; }
      read := read + [r.value];
      rest := rest[1..];
    }
  }

  lemma NothingLeft(decodable: Bytes -> bool)
    ensures EncodeAll([]) == []
    ensures Deserialize([], decodable) == NotEnoughData(4)
  {
  }
}
