/** The wire format of HapProtocol in plain terms: which byte carries what, and the two checksums in
    the closed form of one byte at a time, with their published check values. */
module HapWire {
  import opened Wrappers
  import opened HapProtocol

  // ── The checksums ──────────────────────────────────────────────────

  function Two16(c: Word): Word {
    [c[2], c[3], c[4] != c[0], c[5] != c[1], c[6], c[7], c[8], c[9], c[10], c[11] != c[0], c[12] != c[1], c[13], c[14], c[15], c[0], c[1]]
  }

  function Four16(c: Word): Word {
    [c[4] != c[0], c[5] != c[1], c[6] != c[2], c[7] != c[3], c[8], c[9], c[10], c[11] != c[0],
     c[12] != c[1], c[13] != c[2], c[14] != c[3], c[15], c[0], c[1], c[2], c[3]]
  }

  lemma Bit16(c: Word)
    ensures Bit(POLY16, c) ==
            [c[1], c[2], c[3], c[4] != c[0], c[5], c[6], c[7], c[8], c[9], c[10], c[11] != c[0], c[12], c[13], c[14], c[15], c[0]]
  {
  }

  lemma TwoSteps(c: Word)
    ensures Bit(POLY16, Bit(POLY16, c)) == Two16(c)
  {
    var d := Bit(POLY16, c);
    Bit16(c);
    Bit16(d);
  }

  lemma FourSteps(c: Word)
    ensures Two16(Two16(c)) == Four16(c)
  {
  }

  /** What eight steps make of a 16-bit register: with x its high byte exclusive-ored with its own
      high half, the low byte moves up, and x joins at places 0, 5 and 12. */
  function Eight16(c: Word): Word {
    var x := [c[0], c[1], c[2], c[3], c[4] != c[0], c[5] != c[1], c[6] != c[2], c[7] != c[3]];
    [c[8] != x[4], c[9] != x[5], c[10] != x[6], (c[11] != x[7]) != x[0],
     c[12] != x[1], c[13] != x[2], c[14] != x[3], c[15] != x[4],
     x[5] != x[0], x[6] != x[1], x[7] != x[2], x[3], x[4], x[5], x[6], x[7]]
  }

  lemma FourTwice(c: Word)
    ensures Four16(Four16(c)) == Eight16(c)
  {
  }

  lemma StepsBy(p: Bits, c: Bits, n: nat)
    requires c != [] && |c| == |p|
    ensures Steps(p, c, n + 2) == Bit(p, Bit(p, Steps(p, c, n)))
  {
    assert Steps(p, c, n + 2) == Bit(p, Steps(p, c, n + 1));
  }

  /** Eight single steps of the 16-bit checksum are the closed form. */
  lemma EightSteps16(c: Word)
    ensures Steps(POLY16, c, 8) == Eight16(c)
  {
    var d := Two16(c);
    StepsBy(POLY16, c, 0);
    TwoSteps(c);
    StepsBy(POLY16, c, 2);
    TwoSteps(d);
    FourSteps(c);
    var e := Four16(c);
    StepsBy(POLY16, c, 4);
    TwoSteps(e);
    StepsBy(POLY16, c, 6);
    TwoSteps(Two16(e));
    FourSteps(e);
    FourTwice(c);
  }

  lemma Bit8(c: Byte)
    ensures Bit(POLY8, c) == [c[1], c[2], c[3], c[4], c[5], c[6] != c[0], c[7] != c[0], c[0]]
  {
  }

  function Two8(c: Byte): Byte {
    [c[2], c[3], c[4], c[5], c[6] != c[0], (c[7] != c[0]) != c[1], c[0] != c[1], c[1]]
  }

  lemma TwoSteps8(c: Byte)
    ensures Bit(POLY8, Bit(POLY8, c)) == Two8(c)
  {
    Bit8(c);
    Bit8(Bit(POLY8, c));
  }

  /** What eight steps make of an 8-bit register: it and itself moved up one and two places, and
      what moved out joined again at the low end. */
  function Eight8(c: Byte): Byte {
    [(c[0] != c[1]) != c[2], (c[1] != c[2]) != c[3], (c[2] != c[3]) != c[4], (c[3] != c[4]) != c[5],
     ((c[4] != c[5]) != c[6]) != c[0], ((c[5] != c[6]) != c[7]) != c[1], (c[6] != c[7]) != c[1], (c[7] != c[0]) != c[1]]
  }

  lemma TwiceFour8(c: Byte)
    ensures Two8(Two8(Two8(Two8(c)))) == Eight8(c)
  {
  }

  /** Eight single steps of the 8-bit checksum are the closed form. */
  lemma EightSteps8(c: Byte)
    ensures Steps(POLY8, c, 8) == Eight8(c)
  {
    StepsBy(POLY8, c, 0);
    TwoSteps8(c);
    StepsBy(POLY8, c, 2);
    TwoSteps8(Two8(c));
    StepsBy(POLY8, c, 4);
    TwoSteps8(Two8(Two8(c)));
    StepsBy(POLY8, c, 6);
    TwoSteps8(Two8(Two8(Two8(c))));
    TwiceFour8(c);
  }

  lemma Folded(c: Word, b: Byte, h: Word)
    requires h == Xor(c, b + Zeros(8))
    ensures forall i :: 0 <= i < 8 ==> h[i] == (c[i] != b[i])
    ensures forall i :: 8 <= i < 16 ==> h[i] == c[i]
  {
  }

  lemma Mixed(c: Word, b: Byte, h: Word)
    requires forall i :: 0 <= i < 8 ==> h[i] == (c[i] != b[i])
    requires forall i :: 8 <= i < 16 ==> h[i] == c[i]
    ensures var x0, x1, x2, x3 := c[0] != b[0], c[1] != b[1], c[2] != b[2], c[3] != b[3];
            var x4, x5, x6, x7 := (c[4] != b[4]) != x0, (c[5] != b[5]) != x1, (c[6] != b[6]) != x2, (c[7] != b[7]) != x3;
            Eight16(h) ==
            [c[8] != x4, c[9] != x5, c[10] != x6, (c[11] != x7) != x0, c[12] != x1, c[13] != x2, c[14] != x3, c[15] != x4,
             x5 != x0, x6 != x1, x7 != x2, x3, x4, x5, x6, x7]
  {
  }

  lemma OneMore(s: seq<Byte>, b: Byte)
    ensures Crc16(s + [b]) == Step16(Crc16(s), b) && Crc8(s + [b]) == Step8(Crc8(s), b)
  {
    assert (s + [b])[..|s|] == s;
  }

  /** The 16-bit checksum starts at 0xFFFF, and each byte more turns its register into the closed
      form: x is the high byte exclusive-ored with the new byte and then with its own high half; the
      low byte moves up, and x joins at places 0, 5 and 12. */
  lemma Crc16ByByte(s: seq<Byte>, b: Byte)
    ensures forall i :: 0 <= i < 16 ==> Crc16([])[i]
    ensures var c := Crc16(s);
            var x0, x1, x2, x3 := c[0] != b[0], c[1] != b[1], c[2] != b[2], c[3] != b[3];
            var x4, x5, x6, x7 := (c[4] != b[4]) != x0, (c[5] != b[5]) != x1, (c[6] != b[6]) != x2, (c[7] != b[7]) != x3;
            Crc16(s + [b]) ==
            [c[8] != x4, c[9] != x5, c[10] != x6, (c[11] != x7) != x0, c[12] != x1, c[13] != x2, c[14] != x3, c[15] != x4,
             x5 != x0, x6 != x1, x7 != x2, x3, x4, x5, x6, x7]
  {
    OneMore(s, b);
    var h := Xor(Crc16(s), b + Zeros(8));
    Folded(Crc16(s), b, h);
    Mixed(Crc16(s), b, h);
    EightSteps16(h);
  }

  /** The 8-bit checksum starts at 0, and each byte more turns it, exclusive-ored with the byte,
      into the closed form of eight steps. */
  lemma Crc8ByByte(s: seq<Byte>, b: Byte)
    ensures forall i :: 0 <= i < 8 ==> !Crc8([])[i]
    ensures var c := Crc8(s);
            var x0, x1, x2, x3 := c[0] != b[0], c[1] != b[1], c[2] != b[2], c[3] != b[3];
            var x4, x5, x6, x7 := c[4] != b[4], c[5] != b[5], c[6] != b[6], c[7] != b[7];
            Crc8(s + [b]) ==
            [(x0 != x1) != x2, (x1 != x2) != x3, (x2 != x3) != x4, (x3 != x4) != x5,
             ((x4 != x5) != x6) != x0, ((x5 != x6) != x7) != x1, (x6 != x7) != x1, (x7 != x0) != x1]
  {
    OneMore(s, b);
    EightSteps8(Xor(Crc8(s), b));
  }

  // ── Which byte carries what ────────────────────────────────────────

  lemma {:induction false} NumConcat(a: Bits, b: Bits)
    ensures Num(a + b) == Num(a) * Pow2(|b|) + Num(b) && Num(b) < Pow2(|b|)
    decreases |b|
  {
    if b == [] {
      assert a + b == a;
    } else {
      var front := b[..|b| - 1];
      assert (a + b)[..|a + b| - 1] == a + front;
      NumConcat(a, front);
      Carry(Num(a), Pow2(|front|), Num(front), if b[|b| - 1] then 1 else 0);
    }
  }

  lemma Carry(x: nat, p: nat, n: nat, bit: nat)
    ensures 2 * (x * p + n) + bit == x * (2 * p) + (2 * n + bit)
  {
  }

  /** A word's low byte is its number modulo 256, its high byte the rest. */
  lemma LowHigh(w: Word)
    ensures Num(Lo(w)) == Num(w) % 256 && Num(Hi(w)) == Num(w) / 256
  {
    var hi: Bits, lo: Bits := Hi(w), Lo(w);
    assert hi + lo == w;
    NumConcat(hi, lo);
    assert Pow2(4) == 16;
    assert Pow2(8) == 256;
    Divided(Num(w), Num(hi), Num(lo));
  }

  lemma Divided(n: nat, hi: nat, lo: nat)
    requires n == hi * 256 + lo && lo < 256
    ensures n % 256 == lo && n / 256 == hi
  {
  }

  lemma LengthIs(n: nat)
    requires n < 65536
    ensures Num(ToBits(n, 16)) == n
  {
    assert Pow2(4) == 16;
    assert Pow2(8) == 256;
    assert Pow2(12) == 4096;
    assert Pow2(16) == 65536;
    NumToBits(n, 16);
  }

  /** The header, byte by byte: 0xAA 0x55 0xFE, version 4, type, flags, and then sequence number,
      acknowledged number and payload length, each with its low byte first. */
  lemma HeaderBytes(f: Frame, h: seq<Byte>)
    requires f.len < 65536 && h == Header(f)
    ensures |h| == 12 && Num(h[0]) == 0xAA && Num(h[1]) == 0x55 && Num(h[2]) == 0xFE && Num(h[3]) == 4
    ensures h[4] == f.kind && h[5] == f.flags
    ensures Num(h[6]) == Num(f.num) % 256 && Num(h[7]) == Num(f.num) / 256
    ensures Num(h[8]) == Num(f.ack) % 256 && Num(h[9]) == Num(f.ack) / 256
    ensures Num(h[10]) == f.len % 256 && Num(h[11]) == f.len / 256
  {
    Preamble();
    LowHigh(f.num);
    LowHigh(f.ack);
    LowHigh(ToBits(f.len, 16));
    LengthIs(f.len);
  }

  lemma NumNext(b: Bits, k: nat)
    requires k < |b|
    ensures Num(b[..k + 1]) == 2 * Num(b[..k]) + if b[k] then 1 else 0
  {
    assert b[..k + 1][..k] == b[..k];
  }

  function Weight(bit: bool, w: nat): nat { if bit then w else 0 }

  lemma NibbleValue(b: Bits)
    requires |b| == 4
    ensures Num(b) == Weight(b[0], 8) + Weight(b[1], 4) + Weight(b[2], 2) + Weight(b[3], 1)
  {
    assert b[..4] == b;
    NumNext(b, 0);
    NumNext(b, 1);
    NumNext(b, 2);
    NumNext(b, 3);
  }

  lemma ByteValue(b: Byte)
    ensures Num(b) == Weight(b[0], 128) + Weight(b[1], 64) + Weight(b[2], 32) + Weight(b[3], 16)
                      + Weight(b[4], 8) + Weight(b[5], 4) + Weight(b[6], 2) + Weight(b[7], 1)
  {
    var hi, lo := b[..4], b[4..];
    assert b == hi + lo;
    NumConcat(hi, lo);
    assert Pow2(4) == 16;
    NibbleValue(hi);
    NibbleValue(lo);
  }

  lemma Preamble()
    ensures Num(PREAMBLE0) == 0xAA && Num(PREAMBLE1) == 0x55 && Num(PREAMBLE2) == 0xFE && Num(VERSION) == 4
  {
    ByteValue(PREAMBLE0);
    ByteValue(PREAMBLE1);
    ByteValue(PREAMBLE2);
    ByteValue(VERSION);
  }

  /** A frame in one piece: the header, its CRC-8, the payload, and the payload's CRC-16 with its
      low byte first. */
  lemma FrameBytes(f: Frame, w: seq<Byte>)
    requires Sendable(f) && w == Wire(f)
    ensures |w| == 15 + f.len && w[..12] == Header(f) && w[12] == Crc8(w[..12])
    ensures w[13..13 + f.len] == Payload(f)
    ensures var crc := Num(Crc16(Payload(f))); Num(w[13 + f.len]) == crc % 256 && Num(w[14 + f.len]) == crc / 256
  {
    assert w[..12] == Header(f);
    LowHigh(Crc16(Payload(f)));
  }

  /** The header stage: the header, a zero byte, the CRC-16 of those 13 with its low byte first, and
      a zero byte; the payload stage: the payload and its CRC-16. */
  lemma StageBytes(f: Frame, w: seq<Byte>, v: seq<Byte>)
    requires Sendable(f) && w == Wire1(f) && v == Wire2(Payload(f))
    ensures |w| == 16 && w[..12] == Header(f) && w[12] == Zeros(8) && w[15] == Zeros(8)
    ensures var crc := Num(Crc16(w[..13])); Num(w[13]) == crc % 256 && Num(w[14]) == crc / 256
    ensures |v| == f.len + 2 && v[..f.len] == Payload(f)
    ensures var crc := Num(Crc16(Payload(f))); Num(v[f.len]) == crc % 256 && Num(v[f.len + 1]) == crc / 256
  {
    assert w[..12] == Header(f);
    assert w[..13] == Header1(f);
    LowHigh(Crc16(Header1(f)));
    LowHigh(Crc16(Payload(f)));
  }

  lemma {:induction false} NumOneToOne(a: Bits, b: Bits)
    requires |a| == |b| && Num(a) == Num(b)
    ensures a == b
    decreases |a|
  {
    if a != [] {
      var n := |a| - 1;
      NumOneToOne(a[..n], b[..n]);
      assert a == a[..n] + [a[n]] && b == b[..n] + [b[n]];
    }
  }

  predicate SaysMagic(b: seq<Byte>)
    requires |b| >= 3
  {
    Num(b[0]) == 0xAA && Num(b[1]) == 0x55 && Num(b[2]) == 0xFE
  }

  lemma MagicIs(b: seq<Byte>)
    requires |b| >= 4
    ensures Magic(b, 0) <==> SaysMagic(b)
    ensures b[3] == VERSION <==> Num(b[3]) == 4
  {
    Preamble();
    if SaysMagic(b) {
      NumOneToOne(b[0], PREAMBLE0);
      NumOneToOne(b[1], PREAMBLE1);
      NumOneToOne(b[2], PREAMBLE2);
    }
    if Num(b[3]) == 4 { NumOneToOne(b[3], VERSION); }
  }

  lemma JoinIs(hi: Byte, lo: Byte)
    ensures Num(Join(hi, lo)) == 256 * Num(hi) + Num(lo)
  {
    var h: Bits, l: Bits := hi, lo;
    NumConcat(h, l);
    assert Pow2(4) == 16;
    assert Pow2(8) == 256;
  }

  /** What the decoder refuses for its header, and with which error, in the order in which it looks. */
  lemma Refusals(b: seq<Byte>)
    requires |b| >= 13
    ensures !SaysMagic(b) ==> Decode(b) == BadMagic
    ensures SaysMagic(b) && Num(b[3]) != 4 ==> Decode(b) == BadVersion
    ensures SaysMagic(b) && Num(b[3]) == 4 && Crc8(b[..12]) != b[12] ==> Decode(b) == BadHeaderCrc
  {
    MagicIs(b);
  }

  predicate GoodHeader(b: seq<Byte>) {
    |b| >= 13 && SaysMagic(b) && Num(b[3]) == 4 && Crc8(b[..12]) == b[12]
  }

  /** And with a good header: a length over 4096, or over what is there, or a wrong payload CRC; else
      the frame, with its numbers. */
  lemma PayloadRefusals(b: seq<Byte>, n: nat)
    requires GoodHeader(b) && n == 256 * Num(b[11]) + Num(b[10])
    ensures n > 4096 ==> Decode(b) == Overflow
    ensures n <= 4096 && |b| < 15 + n ==> Decode(b) == Truncated
    ensures n <= 4096 && |b| >= 15 + n ==>
              var sum, crc := 256 * Num(b[14 + n]) + Num(b[13 + n]), Num(Crc16(b[13..13 + n]));
              if sum != crc then Decode(b) == CrcError
              else Decode(b) == Ok(Frame(b[4], b[5], Join(b[7], b[6]), Join(b[9], b[8]), Some(b[13..13 + n]), n))
  {
    MagicIs(b);
    JoinIs(b[11], b[10]);
    if |b| >= 15 + n {
      JoinIs(b[14 + n], b[13 + n]);
      SumIs(Join(b[14 + n], b[13 + n]), Crc16(b[13..13 + n]));
    }
  }

  lemma SumIs(v: Word, w: Word)
    ensures v == w <==> Num(v) == Num(w)
  {
    if Num(v) == Num(w) { NumOneToOne(v, w); }
  }
}
