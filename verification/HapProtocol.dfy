/** The chip link's framing: CRC-protected frames in one piece, or a 16-byte
    header stage and a payload stage, and a stream decoder that finds its way
    back after garbage. Bytes and 16-bit words are their bits, the most
    significant first. */
module HapProtocol {
  import opened Wrappers

  type Bits = seq<bool>
  type Byte = b: Bits | |b| == 8 witness [false, false, false, false, false, false, false, false]
  type Word = w: Bits | |w| == 16
    witness [false, false, false, false, false, false, false, false, false, false, false, false, false, false, false, false]

  // ── Bits ──────────────────────────────────────────────────────────────

  /** The k bits of `n`. */
  function ToBits(n: nat, k: nat): (b: Bits)
    ensures |b| == k
  {
    if k == 0 then [] else ToBits(n / 2, k - 1) + [n % 2 == 1]
  }

  function Num(b: Bits): nat {
    if b == [] then 0 else 2 * Num(b[..|b| - 1]) + if b[|b| - 1] then 1 else 0
  }

  function Pow2(k: nat): nat { if k == 0 then 1 else 2 * Pow2(k - 1) }

  lemma {:induction false} NumToBits(n: nat, k: nat)
    requires n < Pow2(k)
    ensures Num(ToBits(n, k)) == n
    decreases k
  {
    if k > 0 {
      NumToBits(n / 2, k - 1);
      assert ToBits(n, k)[..k - 1] == ToBits(n / 2, k - 1);
    }
  }

  function Xor(a: Bits, b: Bits): (c: Bits)
    requires |a| == |b|
    ensures |c| == |a|
  {
    seq(|a|, i requires 0 <= i < |a| => a[i] != b[i])
  }

  function Zeros(n: nat): (b: Bits)
    ensures |b| == n
  {
    seq(n, i => false)
  }

  lemma XorCancel(c: Bits, x: Bits, y: Bits)
    requires |c| == |x| == |y|
    ensures Xor(c, x) == Xor(c, y) ==> x == y
    ensures Xor(x, c) == Xor(y, c) ==> x == y
  {
    if Xor(c, x) == Xor(c, y) { XorLeft(c, x, y); }
    if Xor(x, c) == Xor(y, c) {
      XorCommutes(x, c);
      XorCommutes(y, c);
      XorLeft(c, x, y);
    }
  }

  lemma XorCommutes(a: Bits, b: Bits)
    requires |a| == |b|
    ensures Xor(a, b) == Xor(b, a)
  {
  }

  lemma XorLeft(c: Bits, x: Bits, y: Bits)
    requires |c| == |x| == |y| && Xor(c, x) == Xor(c, y)
    ensures x == y
  {
    forall i | 0 <= i < |c|
      ensures x[i] == y[i]
    {
      assert Xor(c, x)[i] == Xor(c, y)[i];
    }
  }

  lemma XorAssoc(a: Bits, b: Bits, c: Bits)
    requires |a| == |b| == |c|
    ensures Xor(Xor(a, b), c) == Xor(a, Xor(b, c))
  {
  }

  // ── CRC ───────────────────────────────────────────────────────────────

  /** The generators x^16 + x^12 + x^5 + 1 and x^8 + x^2 + x + 1, without their
      leading terms. */
  const POLY16: Word := [false, false, false, true, false, false, false, false, false, false, true, false, false, false, false, true]
  const POLY8: Byte := [false, false, false, false, false, true, true, true]

  function Shift(c: Bits): (d: Bits)
    requires c != []
    ensures |d| == |c|
  {
    c[1..] + [false]
  }

  /** One bit of a CRC register of `p`'s width. */
  function Bit(p: Bits, c: Bits): (d: Bits)
    requires c != [] && |c| == |p|
    ensures |d| == |c|
  {
    if c[0] then Xor(Shift(c), p) else Shift(c)
  }

  function Steps(p: Bits, c: Bits, n: nat): (d: Bits)
    requires c != [] && |c| == |p|
    ensures |d| == |c|
  {
    if n == 0 then c else Bit(p, Steps(p, c, n - 1))
  }

  lemma BitLinear(p: Bits, a: Bits, b: Bits)
    requires a != [] && |a| == |b| == |p|
    ensures Bit(p, Xor(a, b)) == Xor(Bit(p, a), Bit(p, b))
  {
  }

  lemma BitOneToOne(p: Bits, a: Bits, b: Bits)
    requires a != [] && |a| == |b| == |p| && p[|p| - 1] && Bit(p, a) == Bit(p, b)
    ensures a == b
  {
    var n := |p|;
    assert Bit(p, a)[n - 1] == a[0] && Bit(p, b)[n - 1] == b[0];
    if a[0] { XorCancel(p, Shift(a), Shift(b)); }
    assert Shift(a) == Shift(b);
    assert forall i :: 1 <= i < n ==> Shift(a)[i - 1] == a[i] && Shift(b)[i - 1] == b[i];
  }

  /** The CRC step is linear over exclusive or... */
  lemma {:induction false} StepsLinear(p: Bits, a: Bits, b: Bits, n: nat)
    requires a != [] && |a| == |b| == |p|
    ensures Steps(p, Xor(a, b), n) == Xor(Steps(p, a, n), Steps(p, b, n))
    decreases n
  {
    if n > 0 {
      StepsLinear(p, a, b, n - 1);
      BitLinear(p, Steps(p, a, n - 1), Steps(p, b, n - 1));
    }
  }

  /** ...and one-to-one: no two register values lead to the same one. */
  lemma {:induction false} StepsOneToOne(p: Bits, a: Bits, b: Bits, n: nat)
    requires a != [] && |a| == |b| == |p| && p[|p| - 1] && Steps(p, a, n) == Steps(p, b, n)
    ensures a == b
    decreases n
  {
    if n > 0 {
      BitOneToOne(p, Steps(p, a, n - 1), Steps(p, b, n - 1));
      StepsOneToOne(p, a, b, n - 1);
    }
  }

  function Step16(c: Word, b: Byte): Word { Steps(POLY16, Xor(c, b + Zeros(8)), 8) }
  function Step8(c: Byte, b: Byte): Byte { Steps(POLY8, Xor(c, b), 8) }

  function From16(c: Word, s: seq<Byte>): Word {
    if s == [] then c else Step16(From16(c, s[..|s| - 1]), s[|s| - 1])
  }

  function From8(c: Byte, s: seq<Byte>): Byte {
    if s == [] then c else Step8(From8(c, s[..|s| - 1]), s[|s| - 1])
  }

  const Ones: Word := [true, true, true, true, true, true, true, true, true, true, true, true, true, true, true, true]

  function Crc16(s: seq<Byte>): Word { From16(Ones, s) }
  function Crc8(s: seq<Byte>): Byte { From8(Zeros(8), s) }

  lemma Step16OneToOne(c: Word, d: Word, b: Byte)
    requires Step16(c, b) == Step16(d, b)
    ensures c == d
  {
    var h := b + Zeros(8);
    StepsOneToOne(POLY16, Xor(c, h), Xor(d, h), 8);
    XorCancel(h, c, d);
  }

  // A low byte just moves up, one place a step.
  lemma {:induction false} LowByte(y: Byte, n: nat)
    requires n <= 8
    ensures Steps(POLY16, Zeros(8) + y, n) == Zeros(8 - n) + y + Zeros(n)
    decreases n
  {
    if n > 0 {
      LowByte(y, n - 1);
      var c := Steps(POLY16, Zeros(8) + y, n - 1);
      assert !c[0];
      assert Shift(c) == Zeros(8 - n) + y + Zeros(n);
    } else {
      assert Zeros(8) + y + Zeros(0) == Zeros(8) + y;
    }
  }

  // Two bytes are sixteen bit steps of the word they make.
  lemma TwoBytes(c: Word, x: Byte, y: Byte)
    ensures Step16(Step16(c, x), y) == Steps(POLY16, Steps(POLY16, Xor(c, x + y), 8), 8)
  {
    var hi, lo := x + Zeros(8), Zeros(8) + y;
    LowByte(y, 8);
    assert Zeros(0) + y + Zeros(8) == y + Zeros(8);
    StepsLinear(POLY16, Xor(c, hi), lo, 8);
    XorAssoc(c, hi, lo);
    assert Xor(hi, lo) == x + y;
  }

  lemma TwoBytesOneToOne(c: Word, x: Byte, y: Byte, v: Byte, w: Byte)
    requires Step16(Step16(c, x), y) == Step16(Step16(c, v), w)
    ensures x == v && y == w
  {
    TwoBytes(c, x, y);
    TwoBytes(c, v, w);
    StepsOneToOne(POLY16, Steps(POLY16, Xor(c, x + y), 8), Steps(POLY16, Xor(c, v + w), 8), 8);
    StepsOneToOne(POLY16, Xor(c, x + y), Xor(c, v + w), 8);
    XorCancel(c, x + y, v + w);
    Halves(x, y, v, w);
  }

  lemma Halves(x: Byte, y: Byte, v: Byte, w: Byte)
    requires x + y == v + w
    ensures x == v && y == w
  {
    assert (x + y)[..8] == x && (v + w)[..8] == v;
    assert (x + y)[8..] == y && (v + w)[8..] == w;
  }

  lemma {:induction false} From16Concat(c: Word, s: seq<Byte>, t: seq<Byte>)
    ensures From16(c, s + t) == From16(From16(c, s), t)
    decreases |t|
  {
    if t == [] {
      assert s + t == s;
    } else {
      assert (s + t)[..|s + t| - 1] == s + t[..|t| - 1];
      From16Concat(c, s, t[..|t| - 1]);
    }
  }

  lemma {:induction false} From16OneToOne(c: Word, d: Word, s: seq<Byte>)
    requires From16(c, s) == From16(d, s)
    ensures c == d
    decreases |s|
  {
    if s != [] {
      Step16OneToOne(From16(c, s[..|s| - 1]), From16(d, s[..|s| - 1]), s[|s| - 1]);
      From16OneToOne(c, d, s[..|s| - 1]);
    }
  }

  lemma After2(c: Word, a: seq<Byte>, x: Byte, y: Byte)
    ensures From16(c, a + [x, y]) == Step16(Step16(From16(c, a), x), y)
  {
    var s := a + [x, y];
    assert s[..|s| - 1] == a + [x];
    assert (a + [x])[..|a|] == a;
  }

  /** Two neighbouring bytes changed in any way, and so also one, always change
      the CRC. */
  lemma TwoBytesDetected(a: seq<Byte>, x: Byte, y: Byte, v: Byte, w: Byte, z: seq<Byte>)
    ensures Crc16(a + [x, y] + z) == Crc16(a + [v, w] + z) ==> x == v && y == w
  {
    From16Concat(Ones, a + [x, y], z);
    From16Concat(Ones, a + [v, w], z);
    After2(Ones, a, x, y);
    After2(Ones, a, v, w);
    if Crc16(a + [x, y] + z) == Crc16(a + [v, w] + z) {
      From16OneToOne(From16(Ones, a + [x, y]), From16(Ones, a + [v, w]), z);
      TwoBytesOneToOne(From16(Ones, a), x, y, v, w);
    }
  }

  // The same for a message of one byte, which has no neighbour.
  lemma LastByteDetected(a: seq<Byte>, x: Byte, y: Byte)
    ensures Crc16(a + [x]) == Crc16(a + [y]) ==> x == y
  {
    assert (a + [x])[..|a|] == a && (a + [y])[..|a|] == a;
    if Crc16(a + [x]) == Crc16(a + [y]) {
      var c := From16(Ones, a);
      StepsOneToOne(POLY16, Xor(c, x + Zeros(8)), Xor(c, y + Zeros(8)), 8);
      XorCancel(c, x + Zeros(8), y + Zeros(8));
      Halves(x, Zeros(8), y, Zeros(8));
    }
  }

  lemma Step8Apart(c: Byte, x: Byte, d: Byte, y: Byte)
    requires (c == d) != (x == y)
    ensures Step8(c, x) != Step8(d, y)
  {
    if Step8(c, x) == Step8(d, y) {
      StepsOneToOne(POLY8, Xor(c, x), Xor(d, y), 8);
      XorCancel(c, x, y);
      XorCancel(x, c, d);
    }
  }

  /** One changed byte always changes the CRC-8. */
  lemma {:induction false} Crc8Detects(s: seq<Byte>, t: seq<Byte>, k: nat)
    requires |s| == |t| && k < |s| && s[k] != t[k] && forall i :: 0 <= i < |s| && i != k ==> s[i] == t[i]
    ensures Crc8(s) != Crc8(t)
    decreases |s|
  {
    var n := |s| - 1;
    if k == n {
      assert s[..n] == t[..n];
    } else {
      Crc8Detects(s[..n], t[..n], k);
    }
    Step8Apart(Crc8(s[..n]), s[n], Crc8(t[..n]), t[n]);
  }

  // ── Frames ────────────────────────────────────────────────────────────

  const PREAMBLE0: Byte := [true, false, true, false, true, false, true, false]    // 0xAA
  const PREAMBLE1: Byte := [false, true, false, true, false, true, false, true]    // 0x55
  const PREAMBLE2: Byte := [true, true, true, true, true, true, true, false]       // 0xFE
  const VERSION: Byte := [false, false, false, false, false, true, false, false]   // 0x04
  const HEADER: nat := 12
  const OVERHEAD: nat := 15
  const MAX_PAYLOAD: nat := 4096
  const STAGE1: nat := 16

  /** `payload` is None for a null pointer; `len` is what the frame declares. */
  datatype Frame = Frame(kind: Byte, flags: Byte, num: Word, ack: Word, payload: Option<seq<Byte>>, len: nat)

  predicate Fits(f: Frame) {
    f.len < 65536 && (f.payload.Some? ==> |f.payload.value| == f.len)
  }

  predicate Sendable(f: Frame) { Fits(f) && (f.len > 0 ==> f.payload.Some?) }

  function Payload(f: Frame): seq<Byte> {
    if f.payload.Some? then f.payload.value else []
  }

  function Lo(w: Word): Byte { w[8..] }
  function Hi(w: Word): Byte { w[..8] }

  function Join(hi: Byte, lo: Byte): Word {
    var h: Bits, l: Bits := hi, lo;
    h + l
  }

  function Pair(w: Word): seq<Byte> { [Lo(w), Hi(w)] }

  lemma PairBack(w: Word)
    ensures Join(Hi(w), Lo(w)) == w
  {
  }

  function Header(f: Frame): (h: seq<Byte>)
    ensures |h| == HEADER
  {
    [PREAMBLE0, PREAMBLE1, PREAMBLE2, VERSION, f.kind, f.flags] + Pair(f.num) + Pair(f.ack) + Pair(ToBits(f.len, 16))
  }

  /** A frame as it goes out in one piece. */
  function Wire(f: Frame): seq<Byte> {
    Header(f) + [Crc8(Header(f))] + Payload(f) + Pair(Crc16(Payload(f)))
  }

  datatype Decoded = Ok(f: Frame) | BadMagic | BadVersion | CrcError | Truncated | Overflow | BadHeaderCrc | Resync

  predicate Magic(b: seq<Byte>, i: nat) {
    i + 2 < |b| && b[i] == PREAMBLE0 && b[i + 1] == PREAMBLE1 && b[i + 2] == PREAMBLE2
  }

  function Length(b: seq<Byte>): nat
    requires |b| >= HEADER
  {
    Num(Join(b[11], b[10]))
  }

  function Decode(b: seq<Byte>): Decoded {
    if |b| < 13 then Truncated
    else if !Magic(b, 0) then BadMagic
    else if b[3] != VERSION then BadVersion
    else if Crc8(b[..HEADER]) != b[HEADER] then BadHeaderCrc
    else
      var n := Length(b);
      if n > MAX_PAYLOAD then Overflow
      else if |b| < OVERHEAD + n then Truncated
      else if Join(b[14 + n], b[13 + n]) != Crc16(b[13..13 + n]) then CrcError
      else Ok(Frame(b[4], b[5], Join(b[7], b[6]), Join(b[9], b[8]), Some(b[13..13 + n]), n))
  }

  lemma LengthBack(f: Frame, b: seq<Byte>)
    requires f.len < 65536 && |b| >= HEADER && b[..HEADER] == Header(f)
    ensures Length(b) == f.len
  {
    assert b[10] == Header(f)[10] && b[11] == Header(f)[11];
    PairBack(ToBits(f.len, 16));
    assert Pow2(4) == 16;
    assert Pow2(8) == 256;
    assert Pow2(12) == 4096;
    assert Pow2(16) == 65536;
    NumToBits(f.len, 16);
  }

  // What a decoder reads of a header.
  lemma HeaderBack(f: Frame, b: seq<Byte>)
    requires |b| >= HEADER && b[..HEADER] == Header(f)
    ensures Magic(b, 0) && b[3] == VERSION && b[4] == f.kind && b[5] == f.flags
    ensures Join(b[7], b[6]) == f.num && Join(b[9], b[8]) == f.ack
  {
    PairBack(f.num);
    PairBack(f.ack);
    assert forall i :: 0 <= i < HEADER ==> b[i] == Header(f)[i];
  }

  // A wire image whose payload bytes may have been replaced.
  function WireWith(f: Frame, p: seq<Byte>, tail: seq<Byte>): seq<Byte> {
    Header(f) + [Crc8(Header(f))] + p + Pair(Crc16(Payload(f))) + tail
  }

  // Where the parts of a wire image are.
  lemma WireParts(f: Frame, p: seq<Byte>, tail: seq<Byte>)
    requires |p| == f.len
    ensures var b, crc := WireWith(f, p, tail), Crc16(Payload(f));
            && |b| >= OVERHEAD + f.len && b[..HEADER] == Header(f) && b[HEADER] == Crc8(Header(f))
            && b[13..13 + f.len] == p && b[13 + f.len] == Lo(crc) && b[14 + f.len] == Hi(crc)
  {
  }

  lemma DecodeWire(f: Frame, p: seq<Byte>, tail: seq<Byte>)
    requires Sendable(f) && |p| == f.len
    ensures Decode(WireWith(f, p, tail)) ==
            if f.len > MAX_PAYLOAD then Overflow
            else if Crc16(p) != Crc16(Payload(f)) then CrcError
            else Ok(f.(payload := Some(p)))
  {
    WireParts(f, p, tail);
    DecodeParts(f, p, WireWith(f, p, tail));
  }

  lemma DecodeParts(f: Frame, p: seq<Byte>, b: seq<Byte>)
    requires Sendable(f) && |p| == f.len && |b| >= OVERHEAD + f.len
    requires b[..HEADER] == Header(f) && b[HEADER] == Crc8(Header(f)) && b[13..13 + f.len] == p
    requires b[13 + f.len] == Lo(Crc16(Payload(f))) && b[14 + f.len] == Hi(Crc16(Payload(f)))
    ensures Decode(b) ==
            if f.len > MAX_PAYLOAD then Overflow
            else if Crc16(p) != Crc16(Payload(f)) then CrcError
            else Ok(f.(payload := Some(p)))
  {
    HeaderBack(f, b);
    LengthBack(f, b);
    PairBack(Crc16(Payload(f)));
  }

  /** Decoding undoes encoding exactly up to 4096 payload bytes; a longer frame
      is encoded all the same, and refused by every decoder. */
  lemma RoundTrip(f: Frame, tail: seq<Byte>)
    requires Sendable(f)
    ensures Decode(Wire(f) + tail) == if f.len <= MAX_PAYLOAD then Ok(f.(payload := Some(Payload(f)))) else Overflow
  {
    DecodeWire(f, Payload(f), tail);
    assert WireWith(f, Payload(f), tail) == Wire(f) + tail;
  }

  // Payloads that differ only at k, or at k and k + 1, have different CRCs.
  lemma NeighboursDetected(p: seq<Byte>, q: seq<Byte>, k: nat)
    requires |p| == |q| && k < |p| && p != q && forall i :: 0 <= i < |p| && i != k && i != k + 1 ==> p[i] == q[i]
    ensures Crc16(p) != Crc16(q)
  {
    var j := if k + 1 < |p| then k else if k > 0 then k - 1 else k;
    if j + 1 < |p| {
      var a, z := p[..j], p[j + 2..];
      assert p == a + [p[j], p[j + 1]] + z;
      assert q == a + [q[j], q[j + 1]] + z;
      TwoBytesDetected(a, p[j], p[j + 1], q[j], q[j + 1], z);
    } else {
      assert p == [] + [p[0]] && q == [] + [q[0]];
      LastByteDetected([], p[0], q[0]);
    }
  }

  /** Any one payload byte, or any two neighbours, changed on the way are
      reported. */
  lemma PayloadChangeDetected(f: Frame, q: seq<Byte>, k: nat, tail: seq<Byte>)
    requires Sendable(f) && f.len <= MAX_PAYLOAD && |q| == f.len && k < f.len && q != Payload(f)
    requires forall i :: 0 <= i < f.len && i != k && i != k + 1 ==> q[i] == Payload(f)[i]
    ensures Decode(WireWith(f, q, tail)) == CrcError
  {
    NeighboursDetected(Payload(f), q, k);
    DecodeWire(f, q, tail);
  }

  /** Any one header byte changed on the way is reported. */
  lemma HeaderChangeDetected(f: Frame, k: nat, x: Byte, rest: seq<Byte>)
    requires k < HEADER && x != Header(f)[k]
    ensures !Decode(Header(f)[k := x] + [Crc8(Header(f))] + rest).Ok?
  {
    var h := Header(f)[k := x];
    var b := h + [Crc8(Header(f))] + rest;
    Crc8Detects(h, Header(f), k);
    assert b[..HEADER] == h && b[HEADER] == Crc8(Header(f));
  }

  // ── Two stages ────────────────────────────────────────────────────────

  function Header1(f: Frame): seq<Byte> { Header(f) + [Zeros(8)] }

  function Wire1(f: Frame): (s: seq<Byte>)
    ensures |s| == STAGE1
  {
    Header1(f) + Pair(Crc16(Header1(f))) + [Zeros(8)]
  }

  function Decode1(b: seq<Byte>): Decoded
    requires |b| == STAGE1
  {
    if !Magic(b, 0) then BadMagic
    else if b[3] != VERSION then BadVersion
    else if Crc16(b[..13]) != Join(b[14], b[13]) then BadHeaderCrc
    else
      var n := Length(b);
      if n > MAX_PAYLOAD then Overflow else Ok(Frame(b[4], b[5], Join(b[7], b[6]), Join(b[9], b[8]), None, n))
  }

  function Wire2(p: seq<Byte>): seq<Byte> { p + Pair(Crc16(p)) }

  predicate Verify2(b: seq<Byte>, n: nat)
    requires n + 2 <= |b|
  {
    Crc16(b[..n]) == Join(b[n + 1], b[n])
  }

  /** Both stages undo their encoders up to 4096 payload bytes. */
  lemma StagesRoundTrip(f: Frame, tail: seq<Byte>)
    requires Sendable(f)
    ensures Decode1(Wire1(f)) == if f.len <= MAX_PAYLOAD then Ok(f.(payload := None)) else Overflow
    ensures Verify2(Wire2(Payload(f)) + tail, f.len) && (Wire2(Payload(f)) + tail)[..f.len] == Payload(f)
  {
    var b := Wire1(f);
    assert b[..HEADER] == Header(f) && b[..13] == Header1(f);
    HeaderBack(f, b);
    LengthBack(f, b);
    PairBack(Crc16(Header1(f)));
    assert b[13] == Lo(Crc16(Header1(f))) && b[14] == Hi(Crc16(Header1(f)));
    var c := Wire2(Payload(f)) + tail;
    assert c[..f.len] == Payload(f);
    PairBack(Crc16(Payload(f)));
    assert c[f.len] == Lo(Crc16(Payload(f))) && c[f.len + 1] == Hi(Crc16(Payload(f)));
  }

  /** One byte or two neighbours changed are reported: in the header stage
      before its CRC, and in the payload stage before its own. */
  lemma StageChangeDetected(f: Frame, h: seq<Byte>, p: seq<Byte>, q: seq<Byte>, k: nat, tail: seq<Byte>)
    requires |h| == 13 && (k < 13 && h != Header1(f) ==> forall i :: 0 <= i < 13 && i != k && i != k + 1 ==> h[i] == Header1(f)[i])
    requires |p| == |q| && (k < |p| && p != q ==> forall i :: 0 <= i < |p| && i != k && i != k + 1 ==> q[i] == p[i])
    ensures k < 13 && h != Header1(f) ==> !Decode1(h + Pair(Crc16(Header1(f))) + [Zeros(8)]).Ok?
    ensures k < |p| && p != q ==> !Verify2(q + Pair(Crc16(p)) + tail, |q|)
  {
    if k < 13 && h != Header1(f) {
      NeighboursDetected(h, Header1(f), k);
      var b := h + Pair(Crc16(Header1(f))) + [Zeros(8)];
      assert b[..13] == h && b[13] == Lo(Crc16(Header1(f))) && b[14] == Hi(Crc16(Header1(f)));
      PairBack(Crc16(Header1(f)));
    }
    if k < |p| && p != q {
      NeighboursDetected(q, p, k);
      var b := q + Pair(Crc16(p)) + tail;
      assert b[..|q|] == q && b[|q|] == Lo(Crc16(p)) && b[|q| + 1] == Hi(Crc16(p));
      PairBack(Crc16(p));
    }
  }

  // ── The code ──────────────────────────────────────────────────────────

  method HapCrc16(data: array<Byte>, from: nat, len: nat) returns (crc: Word)
    requires from + len <= data.Length
    ensures crc == Crc16(data[from..from + len])
  {
    crc := Ones;
    for i := 0 to len
      invariant crc == Crc16(data[from..from + i])
    {
      ghost var start := Xor(crc, data[from + i] + Zeros(8));
      ghost var s := data[from..from + i + 1];
      assert s[..|s| - 1] == data[from..from + i] && s[|s| - 1] == data[from + i];
      crc := Xor(crc, data[from + i] + Zeros(8));
      for b := 0 to 8
        invariant crc == Steps(POLY16, start, b)
      {
        crc := if crc[0] then Xor(crc[1..] + [false], POLY16) else crc[1..] + [false];
      }
    }
  }

  method HapCrc8(data: array<Byte>, len: nat) returns (crc: Byte)
    requires len <= data.Length
    ensures crc == Crc8(data[..len])
  {
    crc := Zeros(8);
    for i := 0 to len
      invariant crc == Crc8(data[..i])
    {
      ghost var start := Xor(crc, data[i]);
      ghost var s := data[..i + 1];
      assert s[..|s| - 1] == data[..i] && s[|s| - 1] == data[i];
      crc := Xor(crc, data[i]);
      for b := 0 to 8
        invariant crc == Steps(POLY8, start, b)
      {
        crc := if crc[0] then Xor(crc[1..] + [false], POLY8) else crc[1..] + [false];
      }
    }
  }

  // A word at `at`, low byte first.
  method PutWord(w: Word, buf: array<Byte>, at: nat)
    requires at + 2 <= buf.Length
    modifies buf
    ensures buf[..] == old(buf[..at]) + Pair(w) + old(buf[at + 2..])
  {
    buf[at], buf[at + 1] := Lo(w), Hi(w);
  }

  // The first twelve header bytes.
  method PutHeader(f: Frame, buf: array<Byte>)
    requires buf.Length >= HEADER
    modifies buf
    ensures buf[..HEADER] == Header(f) && buf[HEADER..] == old(buf[HEADER..])
  {
    ghost var tail := buf[HEADER..];
    buf[0], buf[1], buf[2], buf[3] := PREAMBLE0, PREAMBLE1, PREAMBLE2, VERSION;
    buf[4], buf[5] := f.kind, f.flags;
    ghost var front := [PREAMBLE0, PREAMBLE1, PREAMBLE2, VERSION, f.kind, f.flags];
    assert buf[..6] == front && buf[HEADER..] == tail;
    PutWord(f.num, buf, 6);
    assert buf[..8] == front + Pair(f.num) && buf[HEADER..] == tail;
    PutWord(f.ack, buf, 8);
    assert buf[..10] == front + Pair(f.num) + Pair(f.ack) && buf[HEADER..] == tail;
    PutWord(ToBits(f.len, 16), buf, 10);
  }

  // The payload at `at`, then its CRC.
  method PutPayload(f: Frame, buf: array<Byte>, at: nat)
    requires Sendable(f) && at + f.len + 2 <= buf.Length
    modifies buf
    ensures buf[at..at + f.len + 2] == Payload(f) + Pair(Crc16(Payload(f)))
    ensures buf[..at] == old(buf[..at]) && buf[at + f.len + 2..] == old(buf[at + f.len + 2..])
  {
    var p := Payload(f);
    for i := 0 to f.len
      invariant buf[at..at + i] == p[..i]
      invariant buf[..at] == old(buf[..at]) && buf[at + f.len + 2..] == old(buf[at + f.len + 2..])
    {
      buf[at + i] := p[i];
      assert buf[at..at + i + 1] == buf[at..at + i] + [p[i]];
    }
    assert p[..f.len] == p;
    var crc := HapCrc16(buf, at, f.len);
    buf[at + f.len] := Lo(crc);
    buf[at + f.len + 1] := Hi(crc);
    assert buf[at..at + f.len + 2] == p + [Lo(crc), Hi(crc)];
  }

  // The header and its CRC.
  method PutSealed(f: Frame, buf: array<Byte>)
    requires buf.Length >= 13
    modifies buf
    ensures buf[..13] == Header(f) + [Crc8(Header(f))] && buf[13..] == old(buf[13..])
  {
    PutHeader(f, buf);
    var crc := HapCrc8(buf, HEADER);
    assert buf[13..] == buf[HEADER..][1..];
    buf[HEADER] := crc;
    assert buf[..13] == buf[..HEADER] + [crc];
  }

  method HapEncode(f: Frame, buf: array<Byte>) returns (n: nat)
    requires Fits(f)
    modifies buf
    ensures n == if !Sendable(f) || OVERHEAD + f.len > buf.Length then 0 else OVERHEAD + f.len
    ensures n == 0 ==> buf[..] == old(buf[..])
    ensures n > 0 ==> buf[..n] == Wire(f) && buf[n..] == old(buf[n..])
  {
    if f.len > 0 && f.payload.None? { return 0; }
    n := OVERHEAD + f.len;
    if n > buf.Length { return 0; }
    PutSealed(f, buf);
    PutPayload(f, buf, 13);
    assert buf[..n] == buf[..13] + buf[13..n];
    assert buf[n..] == buf[13..][n - 13..];
    assert old(buf[n..]) == old(buf[13..])[n - 13..];
  }

  method HapDecode(buf: array<Byte>, len: nat) returns (r: Decoded)
    requires len <= buf.Length
    ensures r == Decode(buf[..len])
  {
    ghost var b := buf[..len];
    if len < 13 { return Truncated; }
    if buf[0] != PREAMBLE0 || buf[1] != PREAMBLE1 || buf[2] != PREAMBLE2 { return BadMagic; }
    if buf[3] != VERSION { return BadVersion; }
    var crc8 := HapCrc8(buf, HEADER);
    assert buf[..HEADER] == b[..HEADER];
    if crc8 != buf[HEADER] { return BadHeaderCrc; }
    var n := Num(Join(buf[11], buf[10]));
    if n > MAX_PAYLOAD { return Overflow; }
    if len < OVERHEAD + n { return Truncated; }
    var crc := HapCrc16(buf, 13, n);
    assert buf[13..13 + n] == b[13..13 + n];
    if Join(buf[14 + n], buf[13 + n]) != crc { return CrcError; }
    return Ok(Frame(buf[4], buf[5], Join(buf[7], buf[6]), Join(buf[9], buf[8]), Some(buf[13..13 + n]), n));
  }

  /** A stream step consumes something unless the frame is cut short, a whole
      frame when there is one, and otherwise stops at the first later place
      where a preamble starts. */
  method HapDecodeStream(buf: array<Byte>, len: nat) returns (r: Decoded, consumed: nat)
    requires len <= buf.Length
    ensures consumed <= len
    ensures Decode(buf[..len]) == Truncated <==> r == Truncated
    ensures r == Truncated <==> consumed == 0
    ensures r.Ok? ==> r == Decode(buf[..len]) && consumed == OVERHEAD + r.f.len
    ensures Decode(buf[..len]).Ok? ==> r.Ok?
    ensures r != Truncated && !r.Ok? ==> forall i :: 1 <= i < consumed ==> !Magic(buf[..len], i)
    ensures r == Resync <==> 0 < consumed < len && Magic(buf[..len], consumed) && !r.Ok?
    ensures r != Resync ==> r == Decode(buf[..len])
  {
    r := HapDecode(buf, len);
    if r.Ok? { return r, OVERHEAD + r.f.len; }
    if r == Truncated { return r, 0; }
    var i := 1;
    while i + 2 < len
      invariant 1 <= i <= len
      invariant forall j :: 1 <= j < i ==> !Magic(buf[..len], j)
    {
      if buf[i] == PREAMBLE0 && buf[i + 1] == PREAMBLE1 && buf[i + 2] == PREAMBLE2 { return Resync, i; }
      i := i + 1;
    }
    consumed := len;
  }

  method HapEncodeStage1(f: Frame, out: array<Byte>)
    requires out.Length == STAGE1
    modifies out
    ensures out[..] == Wire1(f)
  {
    for i := 0 to STAGE1
      invariant forall j :: 0 <= j < i ==> out[j] == Zeros(8)
    {
      out[i] := Zeros(8);
    }
    ghost var zero := out[..];
    PutHeader(f, out);
    out[12] := Zeros(8);
    assert out[..13] == Header1(f);
    var crc := HapCrc16(out, 0, 13);
    assert out[0..13] == Header1(f);
    out[13] := Lo(crc);
    out[14] := Hi(crc);
    out[15] := Zeros(8);
    assert out[..] == Header1(f) + [Lo(crc), Hi(crc)] + [Zeros(8)];
  }

  method HapDecodeStage1(buf: array<Byte>) returns (r: Decoded)
    requires buf.Length == STAGE1
    ensures r == Decode1(buf[..])
  {
    if buf[0] != PREAMBLE0 || buf[1] != PREAMBLE1 || buf[2] != PREAMBLE2 { return BadMagic; }
    if buf[3] != VERSION { return BadVersion; }
    var crc := HapCrc16(buf, 0, 13);
    assert buf[0..13] == buf[..][..13];
    if crc != Join(buf[14], buf[13]) { return BadHeaderCrc; }
    var n := Num(Join(buf[11], buf[10]));
    if n > MAX_PAYLOAD { return Overflow; }
    return Ok(Frame(buf[4], buf[5], Join(buf[7], buf[6]), Join(buf[9], buf[8]), None, n));
  }

  method HapEncodeStage2(f: Frame, out: array<Byte>) returns (n: nat)
    requires Fits(f)
    modifies out
    ensures n == if !Sendable(f) || f.len + 2 > out.Length then 0 else f.len + 2
    ensures n == 0 ==> out[..] == old(out[..])
    ensures n > 0 ==> out[..n] == Wire2(Payload(f)) && out[n..] == old(out[n..])
  {
    if f.len > 0 && f.payload.None? { return 0; }
    n := f.len + 2;
    if n > out.Length { return 0; }
    PutPayload(f, out, 0);
    assert out[0..n] == out[..n];
  }

  method HapVerifyStage2(buf: array<Byte>, n: nat) returns (ok: bool)
    requires n + 2 <= buf.Length
    ensures ok == Verify2(buf[..], n)
  {
    var crc := HapCrc16(buf, 0, n);
    assert buf[0..n] == buf[..][..n];
    ok := crc == Join(buf[n + 1], buf[n]);
  }
}
