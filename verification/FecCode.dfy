/** The XOR code of SMPTE ST 2022-1 and ST 2022-5 (internal/fec/fec.go): packets as
    vectors, groups as sums, and the algebra that lets one missing member be solved
    for. Fields are natural numbers; XOR never widens them (XorBelow). */
module FecCode {
  import opened Serial
  import opened Arith
  import opened Bits

  // ---- vectors ----

  type Vec = seq<nat>

  function XorVec(a: Vec, b: Vec): (r: Vec)
    requires |a| == |b|
    ensures |r| == |a| && forall i :: 0 <= i < |r| ==> r[i] == Xor(a[i], b[i])
  {
    seq(|a|, i requires 0 <= i < |a| => Xor(a[i], b[i]))
  }

  function Zero(n: nat): (r: Vec)
    ensures |r| == n && forall i :: 0 <= i < n ==> r[i] == 0
  {
    seq(n, _ => 0)
  }

  lemma VecComm(a: Vec, b: Vec)
    requires |a| == |b|
    ensures XorVec(a, b) == XorVec(b, a)
  {
    hide Xor;
    forall i | 0 <= i < |a| ensures XorVec(a, b)[i] == XorVec(b, a)[i] { XorComm(a[i], b[i]); }
  }

  lemma VecAssoc(a: Vec, b: Vec, c: Vec)
    requires |a| == |b| == |c|
    ensures XorVec(XorVec(a, b), c) == XorVec(a, XorVec(b, c))
  {
    hide Xor;
    forall i | 0 <= i < |a| ensures XorVec(XorVec(a, b), c)[i] == XorVec(a, XorVec(b, c))[i] {
      XorAssoc(a[i], b[i], c[i]);
    }
  }

  lemma VecSelf(a: Vec)
    ensures XorVec(a, a) == Zero(|a|)
  {
    hide Xor;
    forall i | 0 <= i < |a| ensures XorVec(a, a)[i] == 0 { XorSelf(a[i]); }
  }

  lemma VecZero(a: Vec)
    ensures XorVec(a, Zero(|a|)) == a && XorVec(Zero(|a|), a) == a
  {
    hide Xor;
    forall i | 0 <= i < |a| ensures XorVec(a, Zero(|a|))[i] == a[i] && XorVec(Zero(|a|), a)[i] == a[i] {
      XorZero(a[i]);
      XorComm(0, a[i]);
    }
  }

  /** Adding the same vector twice changes nothing. */
  lemma VecCancel(a: Vec, b: Vec)
    requires |a| == |b|
    ensures XorVec(XorVec(a, b), b) == a
  {
    VecAssoc(a, b, b);
    VecSelf(b);
    VecZero(a);
  }

  /** The order in which two vectors are added does not matter. */
  lemma VecSwap(a: Vec, b: Vec, c: Vec)
    requires |a| == |b| == |c|
    ensures XorVec(XorVec(a, b), c) == XorVec(XorVec(a, c), b)
  {
    VecAssoc(a, b, c);
    VecAssoc(a, c, b);
    VecComm(b, c);
  }

  // ---- packets ----

  /** The fields of a media packet that FEC protects. */
  datatype Media = Media(ts: nat, pt: nat, payload: seq<nat>)

  /** A payload zero-padded, or cut, to the matrix payload size. */
  function Pad(payload: seq<nat>, size: nat): (r: Vec)
    ensures |r| == size
  {
    seq(size, i requires 0 <= i => if i < |payload| then payload[i] else 0)
  }

  /** Length, payload type, timestamp, then the padded payload. */
  function Pack(m: Media, size: nat): (r: Vec)
    ensures |r| == 3 + size
  {
    [|m.payload| % 65536, m.pt % 128, m.ts] + Pad(m.payload, size)
  }

  /** The packet a vector stands for, if its length is plausible. */
  function Unpack(v: Vec): Media
    requires |v| >= 3 && v[0] <= |v| - 3
  {
    Media(v[2], v[1], v[3..3 + v[0]])
  }

  /** A packet that fits the matrix: nothing is lost by packing it. */
  predicate Fits(m: Media, size: nat) {
    |m.payload| <= size && |m.payload| < 65536 && m.pt < 128
  }

  /** Unpacking inverts packing, length included. */
  lemma PackRoundTrip(m: Media, size: nat)
    requires Fits(m, size)
    ensures Pack(m, size)[0] <= size && Unpack(Pack(m, size)) == m
  {
    var v := Pack(m, size);
    assert v[3..3 + v[0]] == m.payload;
  }

  // ---- the stream and its groups ----

  /** What the sender pushed: packet p carries sequence number isn + p. */
  datatype Stream = Stream(isn: u32, sent: seq<Media>) {
    function Key(p: int): u32 { Plus(isn, p) }

    predicate Has(p: int) { 0 <= p < |sent| }

    /** The p-th packet is the first of a group of `count` packets `stride` apart. */
    predicate HasGroup(p: int, stride: nat, count: nat) {
      p >= 0 && forall i :: 0 <= i < count ==> Has(p + Mul(i, stride))
    }
  }

  /** The sum of the first n packets of the group at p. */
  function GroupSum(st: Stream, p: int, stride: nat, n: nat, size: nat): (r: Vec)
    requires st.HasGroup(p, stride, n)
    ensures |r| == 3 + size
    decreases n
  {
    if n == 0 then Zero(3 + size) else
    XorVec(GroupSum(st, p, stride, n - 1, size), Pack(st.sent[p + Mul(n - 1, stride)], size))
  }
}
