/** WebSocket frames (RFC 6455, section 5) as the exec endpoint writes and reads them. */
module WebSocket {
  import opened Wrappers

  type Byte = bv8

  /** The limit on one frame's payload. */
  const MAX_FRAME := 0x10_0000

  /** `k` bytes of `n`, most significant first. */
  function BigEndian(n: nat, k: nat): (r: seq<Byte>)
    ensures |r| == k
  {
    if k == 0 then [] else BigEndian(n / 256, k - 1) + [(n % 256) as bv8]
  }

  function Value(bytes: seq<Byte>): nat {
    if bytes == [] then 0 else Value(bytes[..|bytes| - 1]) * 256 + bytes[|bytes| - 1] as int
  }

  function Pow256(k: nat): nat {
    if k == 0 then 1 else 256 * Pow256(k - 1)
  }

  lemma {:induction false} BigEndianValue(n: nat, k: nat)
    requires n < Pow256(k)
    ensures Value(BigEndian(n, k)) == n
  {
    if k > 0 {
      assert n / 256 < Pow256(k - 1);
      BigEndianValue(n / 256, k - 1);
      var bytes := BigEndian(n, k);
      assert bytes[..|bytes| - 1] == BigEndian(n / 256, k - 1);
      ByteValue(n % 256);
    }
  }

  lemma ByteValue(n: nat)
    requires n < 256
    ensures (n as bv8) as int == n
  {
    assert n % 256 == n;
  }

  lemma {:induction false} ValueBound(bytes: seq<Byte>)
    ensures Value(bytes) < Pow256(|bytes|)
  {
    if bytes != [] { ValueBound(bytes[..|bytes| - 1]); }
  }

  // ---- Writing ----

  /** The seven-bit length, and the extended length behind it. */
  function LengthField(n: nat): (r: (nat, seq<Byte>))
    ensures r.0 <= 127
  {
    if n <= 125 then (n, [])
    else if n <= 65535 then (126, BigEndian(n, 2))
    else (127, BigEndian(n, 8))
  }

  /** An unmasked final frame. */
  function Frame(op: Byte, payload: seq<Byte>): seq<Byte> {
    var len := LengthField(|payload|);
    [0x80 | op, len.0 as bv8] + len.1 + payload
  }

  /** RFC 6455, section 5.3: byte i of the payload is combined with byte i mod 4 of the key. */
  function Mask(payload: seq<Byte>, key: seq<Byte>): (r: seq<Byte>)
    requires |key| == 4
    ensures |r| == |payload|
  {
    seq(|payload|, i requires 0 <= i < |payload| => payload[i] ^ key[i % 4])
  }

  /** The masked frame a client sends. */
  function MaskedFrame(op: Byte, key: seq<Byte>, payload: seq<Byte>): seq<Byte>
    requires |key| == 4
  {
    var len := LengthField(|payload|);
    [0x80 | op, 0x80 | len.0 as bv8] + len.1 + key + Mask(payload, key)
  }

  // ---- Reading ----

  /** A frame and the bytes behind it; the input ended too early, all of it consumed; the frame is longer
      than the limit; or the length, read as a signed number, is negative and allocating the payload
      panics. In the last two cases `rest` is what was not consumed: the payload and all behind it. */
  datatype Read =
    | Read(op: Byte, payload: seq<Byte>, rest: seq<Byte>)
    | Short
    | TooLong(rest: seq<Byte>)
    | Panics(rest: seq<Byte>)

  function Unread(r: Read): seq<Byte> {
    if r.Short? then [] else r.rest
  }

  function Take(data: seq<Byte>, n: nat): Option<(seq<Byte>, seq<Byte>)> {
    if n <= |data| then Some((data[..n], data[n..])) else None
  }

  function ExtendedBytes(len7: nat): nat {
    if len7 == 126 then 2 else if len7 == 127 then 8 else 0
  }

  function Opcode(b: Byte): Byte {
    b & 0x0F
  }

  predicate MaskBit(b: Byte) {
    b & 0x80 != 0
  }

  function Length7(b: Byte): nat {
    (b & 0x7F) as int
  }

  /** The payload length: the extended length if there is one. */
  function PayloadLength(len7: nat, ext: seq<Byte>): nat {
    if ext == [] then len7 else Value(ext)
  }

  function ReadPayload(op: Byte, key: seq<Byte>, len: nat, data: seq<Byte>): Read
    requires key == [] || |key| == 4
  {
    if len >= 0x8000_0000_0000_0000 then Panics(data)
    else if len > MAX_FRAME then TooLong(data)
    else match Take(data, len)
      case None => Short
      case Some((payload, rest)) => Read(op, if key != [] then Mask(payload, key) else payload, rest)
  }

  /** Everything behind the two header bytes. */
  function ReadAfterHeader(op: Byte, masked: bool, len7: nat, data: seq<Byte>): Read {
    match Take(data, ExtendedBytes(len7))
    case None => Short
    case Some((ext, afterLen)) =>
      match Take(afterLen, if masked then 4 else 0)
      case None => Short
      case Some((key, body)) => ReadPayload(op, key, PayloadLength(len7, ext), body)
  }

  function ReadFrame(data: seq<Byte>): Read {
    match Take(data, 2)
    case None => Short
    case Some((hdr, rest)) => ReadAfterHeader(Opcode(hdr[0]), MaskBit(hdr[1]), Length7(hdr[1]), rest)
  }

  // ---- Round trips ----

  lemma LengthBits(b: Byte)
    requires b <= 127
    ensures b & 0x7F == b && b & 0x80 == 0
    ensures (0x80 | b) & 0x7F == b && (0x80 | b) & 0x80 != 0
  {}

  lemma LengthByte(n: nat)
    requires n <= 127
    ensures Length7(n as bv8) == n && !MaskBit(n as bv8)
    ensures Length7(0x80 | n as bv8) == n && MaskBit(0x80 | n as bv8)
  {
    ByteValue(n);
    LengthBits(n as bv8);
  }

  lemma OpcodeBits(op: Byte)
    ensures op <= 15 ==> Opcode(0x80 | op) == op
  {}

  lemma Powers()
    ensures Pow256(2) == 0x1_0000
    ensures Pow256(8) == 0x1_0000_0000_0000_0000
  {
    assert Pow256(1) == 256;
    assert Pow256(3) == 0x100_0000;
    assert Pow256(5) == 0x100_0000_0000;
    assert Pow256(7) == 0x100_0000_0000_0000;
  }

  lemma LengthFieldReads(n: nat)
    requires n < Pow256(8)
    ensures var f := LengthField(n); |f.1| == ExtendedBytes(f.0) && PayloadLength(f.0, f.1) == n
  {
    Powers();
    if n > 65535 {
      BigEndianValue(n, 8);
    } else if n > 125 {
      BigEndianValue(n, 2);
    }
  }

  lemma TakeConcat(a: seq<Byte>, b: seq<Byte>)
    ensures Take(a + b, |a|) == Some((a, b))
  {
    assert (a + b)[..|a|] == a && (a + b)[|a|..] == b;
  }

  /** Reading behind a header whose pieces are known. */
  lemma ReadPieces(op: Byte, len7: nat, ext: seq<Byte>, key: seq<Byte>, body: seq<Byte>)
    requires |ext| == ExtendedBytes(len7) && (key == [] || |key| == 4)
    ensures ReadAfterHeader(op, key != [], len7, ext + (key + body)) ==
              ReadPayload(op, key, PayloadLength(len7, ext), body)
  {
    TakeConcat(ext, key + body);
    TakeConcat(key, body);
  }

  lemma ReadHeader(b0: Byte, b1: Byte, tail: seq<Byte>)
    ensures ReadFrame([b0, b1] + tail) == ReadAfterHeader(Opcode(b0), MaskBit(b1), Length7(b1), tail)
  {
    TakeConcat([b0, b1], tail);
  }

  lemma MaskTwice(payload: seq<Byte>, key: seq<Byte>)
    requires |key| == 4
    ensures Mask(Mask(payload, key), key) == payload
  {
    forall i | 0 <= i < |payload| ensures Mask(Mask(payload, key), key)[i] == payload[i] {
      XorTwice(payload[i], key[i % 4]);
    }
  }

  lemma XorTwice(a: Byte, b: Byte)
    ensures (a ^ b) ^ b == a
  {}

  lemma Regroup(a: seq<Byte>, b: seq<Byte>, c: seq<Byte>, d: seq<Byte>, e: seq<Byte>)
    ensures a + b + c + d + e == a + (b + (c + (d + e)))
  {
    assert c + d + e == c + (d + e);
    assert a + b + c + d + e == a + (b + (c + d + e));
  }

  /** A frame whose header bytes are known to carry `len7` and the mask bit. */
  lemma ReadAssembled(b0: Byte, b1: Byte, len7: nat, ext: seq<Byte>, key: seq<Byte>, body: seq<Byte>, rest: seq<Byte>)
    requires Length7(b1) == len7 && MaskBit(b1) == (key != []) && (key == [] || |key| == 4)
    requires |ext| == ExtendedBytes(len7)
    ensures ReadFrame([b0, b1] + ext + key + body + rest) ==
            ReadPayload(Opcode(b0), key, PayloadLength(len7, ext), body + rest)
  {
    ReadHeader(b0, b1, ext + (key + (body + rest)));
    ReadPieces(Opcode(b0), len7, ext, key, body + rest);
    Regroup([b0, b1], ext, key, body, rest);
  }

  /** What the server writes it reads back, whatever follows, if and only if the payload is within the
      limit; a longer one is refused. */
  lemma ReadsWhatItWrites(op: Byte, payload: seq<Byte>, rest: seq<Byte>)
    requires op <= 15 && |payload| < 0x8000_0000_0000_0000
    ensures ReadFrame(Frame(op, payload) + rest) ==
            if |payload| <= MAX_FRAME then Read(op, payload, rest) else TooLong(payload + rest)
  {
    var f := LengthField(|payload|);
    Sendable(|payload|);
    OpcodeBits(op);
    ReadAssembled(0x80 | op, f.0 as bv8, f.0, f.1, [], payload, rest);
    assert [0x80 | op, f.0 as bv8] + f.1 + [] == [0x80 | op, f.0 as bv8] + f.1;
    TakeConcat(payload, rest);
  }

  /** The length field of a payload, and the header byte it is put in. */
  lemma Sendable(n: nat)
    requires n < 0x8000_0000_0000_0000
    ensures var f := LengthField(n);
            && |f.1| == ExtendedBytes(f.0) && PayloadLength(f.0, f.1) == n
            && Length7(f.0 as bv8) == f.0 && !MaskBit(f.0 as bv8)
            && Length7(0x80 | f.0 as bv8) == f.0 && MaskBit(0x80 | f.0 as bv8)
  {
    Powers();
    LengthFieldReads(n);
    LengthByte(LengthField(n).0);
  }

  /** What a client sends masked is read unmasked. */
  lemma ReadsMasked(op: Byte, key: seq<Byte>, payload: seq<Byte>, rest: seq<Byte>)
    requires op <= 15 && |payload| < 0x8000_0000_0000_0000 && |key| == 4
    ensures ReadFrame(MaskedFrame(op, key, payload) + rest) ==
            if |payload| <= MAX_FRAME then Read(op, payload, rest) else TooLong(Mask(payload, key) + rest)
  {
    var f := LengthField(|payload|);
    Sendable(|payload|);
    OpcodeBits(op);
    MaskTwice(payload, key);
    TakeConcat(Mask(payload, key), rest);
    ReadAssembled(0x80 | op, 0x80 | f.0 as bv8, f.0, f.1, key, Mask(payload, key), rest);
  }

  /** Reading panics exactly on a 64-bit length with its top bit set, which is negative to the size check
      and to the allocation, once everything in front of the payload has arrived: masked or not,
      whatever the opcode and whatever follows. */
  lemma HugeLengthPanics(data: seq<Byte>)
    ensures ReadFrame(data).Panics? <==>
            && |data| >= 10 && Length7(data[1]) == 127 && Value(data[2..10]) >= 0x8000_0000_0000_0000
            && (MaskBit(data[1]) ==> |data| >= 14)
  {
    if |data| >= 2 {
      PanicsAfterHeader(Opcode(data[0]), MaskBit(data[1]), Length7(data[1]), data[2..]);
      assert |data| >= 10 ==> data[2..][..8] == data[2..10];
    }
  }

  lemma PanicsAfterHeader(op: Byte, masked: bool, len7: nat, data: seq<Byte>)
    requires len7 <= 127
    ensures ReadAfterHeader(op, masked, len7, data).Panics? <==>
            len7 == 127 && |data| >= 8 && Value(data[..8]) >= 0x8000_0000_0000_0000 && (masked ==> |data| >= 12)
  {
    Powers();
    if |data| >= 2 { ValueBound(data[..2]); }
  }

  datatype Message = Message(op: Byte, payload: seq<Byte>)

  function WriteAll(msgs: seq<Message>): seq<Byte> {
    if msgs == [] then [] else Frame(msgs[0].op, msgs[0].payload) + WriteAll(msgs[1..])
  }

  /** Reads frames until the input is used up. */
  function ReadAll(data: seq<Byte>): Option<seq<Message>>
    decreases |data|
  {
    if data == [] then
      Some([])
    else
      match ReadFrame(data)
      case Read(op, payload, rest) =>
        (if |rest| >= |data| then None
         else match ReadAll(rest)
           case Some(more) => Some([Message(op, payload)] + more)
           case None => None)
      case _ => None
  }

  /** Concatenated frames decode to the same list of messages: frame boundaries are never confused. */
  lemma {:induction false} StreamRoundTrip(msgs: seq<Message>)
    requires forall m | m in msgs :: m.op <= 15 && |m.payload| <= MAX_FRAME
    ensures ReadAll(WriteAll(msgs)) == Some(msgs)
  {
    if msgs != [] {
      var m, more := msgs[0], WriteAll(msgs[1..]);
      assert m in msgs;
      ReadsWhatItWrites(m.op, m.payload, more);
      StreamRoundTrip(msgs[1..]);
      assert msgs == [m] + msgs[1..];
    }
  }

  /** Section 5.2 demands the shortest length encoding: no byte sequence that reads as one frame with
      this payload is shorter than the frame written for it. */
  lemma FramesAreShortest(op: Byte, data: seq<Byte>)
    requires ReadFrame(data).Read? && ReadFrame(data).rest == []
    ensures |Frame(op, ReadFrame(data).payload)| <= |data|
  {
    var len7 := Length7(data[1]);
    var afterHdr := data[2..];
    ShortestAfterHeader(Opcode(data[0]), MaskBit(data[1]), len7, afterHdr, op);
  }

  /** How many bytes the shortest form of a length takes beyond the header. */
  function LengthBytes(n: nat): nat {
    if n <= 125 then 0 else if n <= 65535 then 2 else 8
  }

  lemma FrameSize(op: Byte, payload: seq<Byte>)
    ensures |Frame(op, payload)| == 2 + LengthBytes(|payload|) + |payload|
  {}

  lemma NoShorterLength(len7: nat, ext: seq<Byte>)
    requires len7 <= 127 && |ext| == ExtendedBytes(len7)
    ensures LengthBytes(PayloadLength(len7, ext)) <= |ext|
  {
    Powers();
    ValueBound(ext);
  }

  lemma ReadSize(b: Byte, masked: bool, len7: nat, data: seq<Byte>)
    requires ReadAfterHeader(b, masked, len7, data).Read?
    ensures |data| >= ExtendedBytes(len7)
    ensures var r := ReadAfterHeader(b, masked, len7, data);
            && |r.payload| == PayloadLength(len7, data[..ExtendedBytes(len7)])
            && |data| >= ExtendedBytes(len7) + |r.payload|
  {}

  lemma ShortestAfterHeader(b: Byte, masked: bool, len7: nat, data: seq<Byte>, op: Byte)
    requires len7 <= 127 && ReadAfterHeader(b, masked, len7, data).Read?
    ensures |Frame(op, ReadAfterHeader(b, masked, len7, data).payload)| <= 2 + |data|
  {
    ReadSize(b, masked, len7, data);
    NoShorterLength(len7, data[..ExtendedBytes(len7)]);
    FrameSize(op, ReadAfterHeader(b, masked, len7, data).payload);
  }

  // ---- As the program runs ----

  class Connection {
    var incoming: seq<Byte>
    var outgoing: seq<Byte>

    /** writeFrame: header, then payload. */
    method WriteFrame(op: Byte, payload: seq<Byte>)
      modifies this`outgoing
      ensures outgoing == old(outgoing) + Frame(op, payload)
    {
      var n := |payload|;
      var hdr: seq<Byte>;
      if n <= 125 {
        hdr := [0x80 | op, n as bv8] + [];
      } else if n <= 65535 {
        hdr := [0x80 | op, 126] + BigEndian(n, 2);
      } else {
        hdr := [0x80 | op, 127] + BigEndian(n, 8);
      }
      outgoing := outgoing + hdr;
      outgoing := outgoing + payload;
      assert hdr + payload == Frame(op, payload);
      assert old(outgoing) + hdr + payload == old(outgoing) + (hdr + payload);
    }

    /** io.ReadFull. */
    method ReadFull(n: nat) returns (ok: bool, bytes: seq<Byte>)
      modifies this`incoming
      ensures ok <==> Take(old(incoming), n).Some?
      ensures ok ==> Take(old(incoming), n) == Some((bytes, incoming))
      ensures !ok ==> incoming == []
    {
      ok := n <= |incoming|;
      if ok {
        bytes, incoming := incoming[..n], incoming[n..];
      } else {
        bytes, incoming := incoming, [];
      }
    }

    /** readFrame: consumes the reader and unmasks the payload in place. */
    method Receive() returns (r: Read)
      modifies this`incoming
      ensures r == ReadFrame(old(incoming)) && incoming == Unread(r)
    {
      var ok, hdr := ReadFull(2);
      if !ok {
        return Short;
      }
      var masked, len7 := MaskBit(hdr[1]), Length7(hdr[1]);
      r := ReceiveAfterHeader(Opcode(hdr[0]), masked, len7);
    }

    method ReceiveAfterHeader(op: Byte, masked: bool, len7: nat) returns (r: Read)
      modifies this`incoming
      ensures r == ReadAfterHeader(op, masked, len7, old(incoming)) && incoming == Unread(r)
    {
      var ok, ext := ReadFull(ExtendedBytes(len7));
      if !ok {
        return Short;
      }
      var key;
      ok, key := ReadFull(if masked then 4 else 0);
      if !ok {
        return Short;
      }
      r := ReceivePayload(op, key, PayloadLength(len7, ext));
    }

    method ReceivePayload(op: Byte, key: seq<Byte>, len: nat) returns (r: Read)
      requires key == [] || |key| == 4
      modifies this`incoming
      ensures r == ReadPayload(op, key, len, old(incoming)) && incoming == Unread(r)
    {
      if len >= 0x8000_0000_0000_0000 {
        return Panics(incoming);
      }
      if len > MAX_FRAME {
        return TooLong(incoming);
      }
      var ok, body := ReadFull(len);
      if !ok {
        return Short;
      }
      var payload := new Byte[len](i requires 0 <= i < |body| => body[i]);
      assert payload[..] == body;
      if key != [] {
        Unmask(payload, key);
      }
      r := Read(op, payload[..], incoming);
    }
  }

  method Unmask(payload: array<Byte>, key: seq<Byte>)
    requires |key| == 4
    modifies payload
    ensures payload[..] == Mask(old(payload[..]), key)
  {
    for i := 0 to payload.Length
      invariant forall j | 0 <= j < i :: payload[j] == old(payload[j]) ^ key[j % 4]
      invariant forall j | i <= j < payload.Length :: payload[j] == old(payload[j])
    {
      payload[i] := payload[i] ^ key[i % 4];
    }
  }
}
