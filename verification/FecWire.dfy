/** The 16-octet FEC headers (internal/fec/header.go, internal/fec/header2022_5.go):
    ST 2022-1 carries a 24-bit base and 8-bit Offset and NA, ST 2022-5 a 16-bit base
    and 10-bit Offset and NA. A packet survives the wire exactly. */
module FecWire {
  import opened Arith
  import opened Serial
  import opened Bits
  import opened FlowTypes
  import opened FecCode
  import opened FecDecoder
  import opened FecRun
  import opened FecEncoder

  const HEADER_SIZE := 16

  type Octets = seq<nat>

  function Big16(n: nat): Octets { [n / 256 % 256, n % 256] }

  function Big32(n: nat): Octets {
    [n / 0x100_0000 % 256, n / 0x1_0000 % 256, n / 256 % 256, n % 256]
  }

  function Read16(b: Octets, i: nat): nat
    requires i + 2 <= |b|
  {
    256 * b[i] + b[i + 1]
  }

  function Read32(b: Octets, i: nat): nat
    requires i + 4 <= |b|
  {
    0x100_0000 * b[i] + 0x1_0000 * b[i + 1] + 256 * b[i + 2] + b[i + 3]
  }

  /** Header, then the sum of the payloads. */
  function Encode(variant: Variant, direction: Direction, p: FecPacket): Octets {
    match variant
    case St20221 =>
      Big16(p.snBase % 0x1_0000) + Big16(p.lengthRec) + [p.ptRec % 128, 0, 0, 0] + Big32(p.tsRec)
      + [if direction.Row? then 64 else 0, p.offset % 256, p.na % 256, p.snBase / 0x1_0000 % 256] + p.payload
    case St20225 =>
      [0, p.ptRec % 128] + Big16(p.snBase) + Big32(p.tsRec) + Big16(p.lengthRec) + [0, 0]
      + Big16(p.offset % 1024 * 64) + Big16(p.na % 1024 * 64) + p.payload
  }

  function Parse(variant: Variant, b: Octets): Option<FecPacket> {
    if |b| < HEADER_SIZE then None
    else match variant
      case St20221 =>
        Some(FecPacket(0x1_0000 * b[15] + Read16(b, 0), b[13], b[14], Read16(b, 2), b[4] % 128, Read32(b, 8), b[16..]))
      case St20225 =>
        Some(FecPacket(Read16(b, 2), Read16(b, 12) / 64, Read16(b, 14) / 64, Read16(b, 8), b[1] % 128, Read32(b, 4), b[16..]))
  }

  /** The direction bit of an ST 2022-1 header. */
  function ReadDirection(b: Octets): Direction
    requires |b| >= HEADER_SIZE
  {
    if b[12] / 64 % 2 == 1 then Row else Column
  }

  /** The fields are as wide as the header's. */
  predicate OnWire(variant: Variant, p: FecPacket) {
    && p.snBase < Span(variant) && p.lengthRec < 0x1_0000 && p.ptRec < 128 && p.tsRec < 0x1_0000_0000
    && p.offset < (if variant.St20225? then 1024 else 256) && p.na < (if variant.St20225? then 1024 else 256)
  }

  lemma Round16(n: nat, b: Octets, i: nat)
    requires n < 0x1_0000 && i + 2 <= |b| && b[i..i + 2] == Big16(n)
    ensures Read16(b, i) == n
  {
    assert b[i] == b[i..i + 2][0] && b[i + 1] == b[i..i + 2][1];
  }

  lemma Round32(n: nat, b: Octets, i: nat)
    requires n < 0x1_0000_0000 && i + 4 <= |b| && b[i..i + 4] == Big32(n)
    ensures Read32(b, i) == n
  {
    assert b[i] == b[i..i + 4][0] && b[i + 1] == b[i..i + 4][1] && b[i + 2] == b[i..i + 4][2] && b[i + 3] == b[i..i + 4][3];
    Base256(n);
  }

  lemma Base256(n: nat)
    requires n < 0x1_0000_0000
    ensures 0x100_0000 * (n / 0x100_0000 % 256) + 0x1_0000 * (n / 0x1_0000 % 256) + 256 * (n / 256 % 256) + n % 256 == n
  {
    var a := n / 256;
    var b := a / 256;
    assert n / 0x1_0000 == b && n / 0x100_0000 == b / 256;
    assert n == 256 * a + n % 256 && a == 256 * b + a % 256 && b == 256 * (b / 256) + b % 256;
  }

  lemma Slices20221(direction: Direction, p: FecPacket)
    ensures var b := Encode(St20221, direction, p);
      && |b| == 16 + |p.payload|
      && b[0..2] == Big16(p.snBase % 0x1_0000) && b[2..4] == Big16(p.lengthRec) && b[4] == p.ptRec % 128
      && b[8..12] == Big32(p.tsRec) && b[12] == (if direction.Row? then 64 else 0)
      && b[13] == p.offset % 256 && b[14] == p.na % 256 && b[15] == p.snBase / 0x1_0000 % 256 && b[16..] == p.payload
  {
  }

  lemma Slices20225(direction: Direction, p: FecPacket)
    ensures var b := Encode(St20225, direction, p);
      && |b| == 16 + |p.payload|
      && b[0] == 0 && b[1] == p.ptRec % 128 && b[2..4] == Big16(p.snBase) && b[4..8] == Big32(p.tsRec)
      && b[8..10] == Big16(p.lengthRec) && b[12..14] == Big16(p.offset % 1024 * 64)
      && b[14..16] == Big16(p.na % 1024 * 64) && b[16..] == p.payload
  {
  }

  /** Parsing inverts encoding, in either variant and direction. */
  lemma WireRoundTrip(variant: Variant, direction: Direction, p: FecPacket)
    requires OnWire(variant, p)
    ensures var b := Encode(variant, direction, p);
      && Parse(variant, b) == Some(p) && |b| >= HEADER_SIZE
      && (variant.St20221? ==> ReadDirection(b) == direction)
      && (variant.St20225? ==> b[0] == 0 && b[1] < 128)
  {
    hide Read16, Read32, Big16, Big32, Encode;
    var b := Encode(variant, direction, p);
    if variant.St20221? {
      Slices20221(direction, p);
      Round16(p.snBase % 0x1_0000, b, 0);
      Round16(p.lengthRec, b, 2);
      Round32(p.tsRec, b, 8);
    } else {
      Slices20225(direction, p);
      Round16(p.snBase, b, 2);
      Round32(p.tsRec, b, 4);
      Round16(p.lengthRec, b, 8);
      Round16(p.offset % 1024 * 64, b, 12);
      Round16(p.na % 1024 * 64, b, 14);
    }
  }

  lemma {:induction false} SumWidths(st: Stream, b: int, stride: nat, n: nat, size: nat)
    requires st.HasGroup(b, stride, n) && forall p :: 0 <= p < |st.sent| ==> st.sent[p].ts < 0x1_0000_0000
    ensures GroupSum(st, b, stride, n, size)[0] < 0x1_0000 && GroupSum(st, b, stride, n, size)[2] < 0x1_0000_0000
    decreases n
  {
    hide Xor;
    if n > 0 {
      var m := st.sent[b + Mul(n - 1, stride)];
      SumWidths(st, b, stride, n - 1, size);
      PowersOfTwo();
      XorBelow(GroupSum(st, b, stride, n - 1, size)[0], |m.payload| % 65536, 16);
      XorBelow(GroupSum(st, b, stride, n - 1, size)[2], m.ts, 32);
    }
  }

  lemma PowersOfTwo()
    ensures Pow2(16) == 0x1_0000 && Pow2(32) == 0x1_0000_0000
  {
    assert Pow2(8) == 256;
    assert Pow2(16) == 256 * Pow2(8) by { assert Pow2(12) == 16 * Pow2(8); }
    assert Pow2(24) == 256 * Pow2(16) by { assert Pow2(20) == 16 * Pow2(16); }
    assert Pow2(32) == 256 * Pow2(24) by { assert Pow2(28) == 16 * Pow2(24); }
  }

  /** Every packet the encoder puts out survives the wire. */
  lemma EmittedSurvives(st: Stream, cfg: MatrixConfig, size: nat, b: int, stride: nat, count: nat, direction: Direction)
    requires cfg.Valid() && cfg.GeometryOk(stride, count) && st.HasGroup(b, stride, count)
    requires forall p :: 0 <= p < |st.sent| ==> st.sent[p].ts < 0x1_0000_0000
    ensures var p := FecOf(st, b, stride, count, size, cfg.variant);
      Parse(cfg.variant, Encode(cfg.variant, direction, p)) == Some(p)
  {
    hide Parse, Encode, GroupSum, Stream.HasGroup, MatrixConfig.Matrix;
    SumWidths(st, b, stride, count, size);
    SumPt(st, b, stride, count, size);
    GroupSpan(cfg, stride, count);
    WireRoundTrip(cfg.variant, direction, FecOf(st, b, stride, count, size, cfg.variant));
  }
}
