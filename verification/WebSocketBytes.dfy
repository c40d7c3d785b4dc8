/** The bytes of a frame, one by one as section 5.2 of RFC 6455 lays them out. */
module WebSocketBytes {
  import opened WebSocket

  /** 256 to the power `j`. */
  function Weight(j: nat): (w: nat)
    ensures w >= 1
  {
    if j == 0 then 1 else 256 * Weight(j - 1)
  }

  /** The digits of `n` to the base 256, the last ones as many as there are bytes. */
  predicate Digits(bytes: seq<Byte>, n: nat) {
    forall i | 0 <= i < |bytes| :: bytes[i] as int == n / Weight(|bytes| - 1 - i) % 256
  }

  lemma MulAtLeast(x: int, d: int)
    requires x >= 1 && d >= 1
    ensures x * d >= d
  {
    assert x * d == (x - 1) * d + d;
    assert (x - 1) * d >= 0;
  }

  lemma QuotientIs(n: nat, d: nat, q: nat, r: nat)
    requires n == q * d + r && r < d
    ensures n / d == q
  {
    var q', r' := n / d, n % d;
    assert n == q' * d + r';
    assert (q - q') * d == r' - r by { assert (q - q') * d == q * d - q' * d; }
    assert (q' - q) * d == -((q - q') * d);
    if q > q' { MulAtLeast(q - q', d); }
    if q' > q { MulAtLeast(q' - q, d); }
  }

  lemma DivideTwice(n: nat, w: nat)
    requires w >= 1
    ensures n / 256 / w == n / (256 * w)
  {
    var q, r := n / 256, n % 256;
    var s, t := q / w, q % w;
    assert q == s * w + t;
    assert q * 256 == (s * w) * 256 + t * 256;
    assert (s * w) * 256 == s * (256 * w);
    QuotientIs(n, 256 * w, s, 256 * t + r);
  }

  lemma {:induction false} BigEndianIsDigits(n: nat, k: nat)
    ensures Digits(BigEndian(n, k), n)
  {
    if k > 0 {
      BigEndianIsDigits(n / 256, k - 1);
      var front, bytes := BigEndian(n / 256, k - 1), BigEndian(n, k);
      ByteValue(n % 256);
      forall i | 0 <= i < k ensures bytes[i] as int == n / Weight(k - 1 - i) % 256 {
        if i < k - 1 {
          DivideTwice(n, Weight(k - 2 - i));
          assert bytes[i] == front[i];
        }
      }
    }
  }

  lemma FirstByte(op: Byte)
    requires op <= 15
    ensures (0x80 | op) & 0x80 == 0x80 && (0x80 | op) & 0x70 == 0 && (0x80 | op) & 0x0F == op
  {}

  /** The first byte: the frame is final, has no reserved bits, and carries the opcode. */
  lemma FrameStarts(op: Byte, payload: seq<Byte>)
    requires op <= 15
    ensures var f := Frame(op, payload);
            |f| >= 2 && f[0] & 0x80 == 0x80 && f[0] & 0x70 == 0 && f[0] & 0x0F == op
  {
    FirstByte(op);
  }

  lemma Pieces(first: Byte, second: Byte, ext: seq<Byte>, payload: seq<Byte>)
    ensures var f := [first, second] + ext + payload;
            && |f| == 2 + |ext| + |payload| && f[0] == first && f[1] == second
            && f[2..2 + |ext|] == ext && f[2 + |ext|..] == payload
  {}

  /** The bytes behind it: the length in the shortest of three forms, most significant byte first, with the
      mask bit clear, and the payload as it is. */
  lemma FrameBytes(op: Byte, payload: seq<Byte>)
    ensures var f, n := Frame(op, payload), |payload|;
            && |f| == (if n <= 125 then 2 else if n <= 65535 then 4 else 10) + n && f[|f| - n..] == payload
            && f[1] == (if n <= 125 then n as bv8 else if n <= 65535 then 126 else 127)
            && (n > 125 ==> Digits(f[2..|f| - n], n))
  {
    var len := LengthField(|payload|);
    Pieces(0x80 | op, len.0 as bv8, len.1, payload);
    BigEndianIsDigits(|payload|, |len.1|);
  }

  /** The limit is one mebibyte. */
  lemma LimitIsOneMebibyte(op: Byte, payload: seq<Byte>)
    requires op <= 15 && |payload| < 0x8000_0000_0000_0000
    ensures ReadFrame(Frame(op, payload)) ==
            if |payload| <= 1024 * 1024 then Read(op, payload, []) else TooLong(payload)
  {
    ReadsWhatItWrites(op, payload, []);
    assert Frame(op, payload) + [] == Frame(op, payload) && payload + [] == payload;
  }

  lemma WholePayload(op: Byte, key: seq<Byte>, body: seq<Byte>)
    requires |body| <= 125 && |key| == 4
    ensures ReadPayload(op, key, |body|, body + []) == Read(op, Mask(body, key), [])
  {
    TakeConcat(body, []);
  }

  lemma NothingBetween(a: seq<Byte>, key: seq<Byte>, body: seq<Byte>)
    ensures a + [] + key + body + [] == a + key + body
  {}

  lemma ShortMasked(b0: Byte, b1: Byte, key: seq<Byte>, body: seq<Byte>)
    requires MaskBit(b1) && Length7(b1) == |body| <= 125 && |key| == 4
    ensures ReadFrame([b0, b1] + key + body) == Read(Opcode(b0), Mask(body, key), [])
  {
    assert PayloadLength(|body|, []) == |body|;
    ReadAssembled(b0, b1, |body|, [], key, body, []);
    NothingBetween([b0, b1], key, body);
    WholePayload(Opcode(b0), key, body);
  }

  lemma Cut(data: seq<Byte>)
    requires |data| >= 6
    ensures data == [data[0], data[1]] + data[2..6] + data[6..]
    ensures forall i | 0 <= i < |data| - 6 :: data[6..][i] == data[6 + i] && data[2..6][i % 4] == data[2 + i % 4]
  {}

  lemma MaskedBytes(body: seq<Byte>, key: seq<Byte>)
    requires |key| == 4
    ensures forall i | 0 <= i < |body| :: Mask(body, key)[i] == body[i] ^ key[i % 4]
  {}

  /** A short masked frame, read byte by byte: each byte of the payload is combined with the byte of the key
      whose turn it is. */
  lemma MaskedBytesRead(data: seq<Byte>)
    requires |data| >= 6 && data[1] & 0x80 != 0 && (data[1] & 0x7F) as int == |data| - 6 <= 125
    ensures match ReadFrame(data)
            case Read(op, payload, rest) =>
              && op == data[0] & 0x0F && |payload| == |data| - 6 && rest == []
              && forall i | 0 <= i < |payload| :: payload[i] == data[6 + i] ^ data[2 + i % 4]
            case _ => false
  {
    var b0, b1, key, body := data[0], data[1], data[2..6], data[6..];
    Cut(data);
    ShortMasked(b0, b1, key, body);
    MaskedBytes(body, key);
  }
}
