/** The FEC decoder (internal/fec/fec.go): a window of media, the stored FEC packets,
    and the peeling that rebuilds single losses until no group has exactly one
    missing member. For genuine input the result is the least set closed under that
    rule, whatever the order of the groups, and every rebuilt packet is the one that
    was sent. */
module FecDecoder {
  import opened Arith
  import opened Serial
  import opened FecCode

  datatype Variant = St20221 | St20225

  /** Cols (L) by Rows (D); columnOnly leaves out the row dimension. */
  datatype MatrixConfig = MatrixConfig(cols: nat, rows: nat, columnOnly: bool, variant: Variant) {
    function Matrix(): nat { cols * rows }

    function Window(): nat { 3 * Matrix() + cols + 8 }

    function MaxFecs(): nat { (cols + rows) * 4 + 16 }

    /** The bounds the public configuration enforces. */
    predicate Valid() {
      && (if columnOnly then 1 else 4) <= cols && 4 <= rows
      && match variant
         case St20221 => cols <= 20 && rows <= 20 && Matrix() <= 100
         case St20225 => cols <= 1020 && rows <= 255 && Matrix() <= 6000
    }

    /** A column is (L, D); a row is (1, L). */
    predicate GeometryOk(stride: nat, count: nat) {
      (stride == cols && count == rows) || (!columnOnly && stride == 1 && count == cols)
    }
  }

  lemma WindowBound(cfg: MatrixConfig)
    requires cfg.Valid()
    ensures 4 <= cfg.Matrix() <= 6000 && cfg.Window() <= 19028
    ensures cfg.Window() >= cfg.Matrix()
    ensures cfg.variant.St20221? ==> cfg.Window() <= 328
  {
    MulMono(1, cfg.cols, cfg.rows);
  }

  /** A legitimate group fits well inside the window. */
  lemma GroupSpan(cfg: MatrixConfig, stride: nat, count: nat)
    requires cfg.Valid() && cfg.GeometryOk(stride, count)
    ensures stride >= 1 && count >= 2 && Mul(count - 1, stride) < cfg.Matrix()
    ensures stride <= 1020 && count <= 1020
  {
    hide Mul;
    WindowBound(cfg);
    MulIs(cfg.rows, cfg.cols);
    if stride == cfg.cols && count == cfg.rows {
      MulStep(cfg.rows - 1, cfg.cols);
    } else {
      MulOne(cfg.cols - 1);
      MulOne(cfg.cols);
      MulMono(1, cfg.rows, cfg.cols);
      MulStep(0, cfg.cols);
    }
  }

  /** A stored media packet. */
  datatype Kept = Kept(media: Media, ssrc: nat)

  datatype Recovered = Recovered(seqno: u32, media: Media, ssrc: nat)

  /** A stored FEC packet: the group it protects, and the group's sums. */
  datatype Stored = Stored(base: u32, stride: nat, count: nat,
                           lengthRec: nat, ptRec: nat, tsRec: nat, payload: seq<nat>, done: bool) {
    function Members(): seq<u32> { seq(count, i => Plus(base, Mul(i, stride))) }

    function Newest(): u32 { Plus(base, Mul(count - 1, stride)) }

    function Sum(size: nat): Vec { [lengthRec, ptRec, tsRec] + Pad(payload, size) }

    predicate SameGroup(f: Stored) { base == f.base && stride == f.stride && count == f.count }
  }

  datatype Decoder = Decoder(cfg: MatrixConfig, size: nat, media: map<u32, Kept>, fecs: seq<Stored>,
                             lastSeq: u32, haveSeq: bool, out: seq<Recovered>) {
    function Floor(): u32 { Plus(lastSeq, 0 - cfg.Window()) }

    predicate Below(k: u32) { Distance(Floor(), k) < 0 }

    /** The whole group is in the window and was sent. */
    predicate Eligible(f: Stored) { !Below(f.base) && Distance(lastSeq, f.Newest()) <= 0 }

    predicate InWindow(k: u32) { Fwd(k, lastSeq) <= cfg.Window() }
  }

  // ---- one group ----

  /** The members not in `have`, in order. */
  function Absent(ms: seq<u32>, have: set<u32>): seq<u32> {
    if ms == [] then []
    else Absent(ms[..|ms| - 1], have) + (if ms[|ms| - 1] in have then [] else [ms[|ms| - 1]])
  }

  /** rec with the first n members that are present added in. */
  function Rebuild(rec: Vec, ms: seq<u32>, n: nat, media: map<u32, Kept>, size: nat): (r: Vec)
    requires |rec| == 3 + size && n <= |ms|
    ensures |r| == 3 + size
  {
    if n == 0 then rec else
    var before := Rebuild(rec, ms, n - 1, media, size);
    if ms[n - 1] in media then XorVec(before, Pack(media[ms[n - 1]].media, size)) else before
  }

  /** The source of the last of the first n members that is present. */
  function GroupSsrc(ms: seq<u32>, n: nat, media: map<u32, Kept>): nat
    requires n <= |ms|
  {
    if n == 0 then 0
    else if ms[n - 1] in media then media[ms[n - 1]].ssrc
    else GroupSsrc(ms, n - 1, media)
  }

  datatype Outcome = Leave | Finish | Recover(packet: Recovered)

  function Attempt(d: Decoder, f: Stored): Outcome {
    if f.done then Leave
    else if d.Below(f.base) then Finish
    else if Distance(d.lastSeq, f.Newest()) > 0 then Leave
    else
      var ms := f.Members();
      var miss := Absent(ms, d.media.Keys);
      if |miss| > 1 then Leave
      else if |miss| == 0 then Finish
      else
        var v := Rebuild(f.Sum(d.size), ms, |ms|, d.media, d.size);
        if v[0] > d.size then Finish
        else Recover(Recovered(miss[0], Unpack(v), GroupSsrc(ms, |ms|, d.media)))
  }

  function Finished(fecs: seq<Stored>, i: nat): seq<Stored>
    requires i < |fecs|
  {
    fecs[i := fecs[i].(done := true)]
  }

  function TryRecover(d: Decoder, i: nat): Decoder
    requires i < |d.fecs|
  {
    match Attempt(d, d.fecs[i])
    case Leave => d
    case Finish => d.(fecs := Finished(d.fecs, i))
    case Recover(p) =>
      d.(fecs := Finished(d.fecs, i), media := d.media[p.seqno := Kept(p.media, p.ssrc)], out := d.out + [p])
  }

  // ---- to the fixed point ----

  function Undone(fecs: seq<Stored>): nat {
    if fecs == [] then 0 else Undone(fecs[..|fecs| - 1]) + (if fecs[|fecs| - 1].done then 0 else 1)
  }

  lemma {:induction false} UndoneFalls(fecs: seq<Stored>, i: nat)
    requires i < |fecs|
    ensures Undone(Finished(fecs, i)) == Undone(fecs) - (if fecs[i].done then 0 else 1)
  {
    var n := |fecs| - 1;
    if i < n {
      assert Finished(fecs, i)[..n] == Finished(fecs[..n], i);
      UndoneFalls(fecs[..n], i);
    } else {
      assert Finished(fecs, i)[..n] == fecs[..n];
    }
  }

  /** One pass over the stored groups, from the i-th. */
  function Pass(d: Decoder, i: nat): (r: Decoder)
    requires i <= |d.fecs|
    ensures |r.fecs| == |d.fecs| && |r.out| >= |d.out|
    ensures Undone(r.fecs) <= Undone(d.fecs)
    ensures |r.out| > |d.out| ==> Undone(r.fecs) < Undone(d.fecs)
    decreases |d.fecs| - i
  {
    if i == |d.fecs| then d else
    UndoneFalls(d.fecs, i);
    Pass(TryRecover(d, i), i + 1)
  }

  /** Passes repeat until one recovers nothing; each that does finishes a group. */
  function RecoverAll(d: Decoder): (r: Decoder)
    decreases Undone(d.fecs)
  {
    var d' := Pass(d, 0);
    if |d'.out| > |d.out| then RecoverAll(d') else d'
  }

  // ---- the entry points ----

  /** A parsed FEC packet. */
  datatype FecPacket = FecPacket(snBase: nat, offset: nat, na: nat,
                                 lengthRec: nat, ptRec: nat, tsRec: nat, payload: seq<nat>)

  /** The number of sequence numbers a truncated base can tell apart. */
  function Span(variant: Variant): nat { if variant.St20225? then 0x1_0000 else 0x100_0000 }

  function Abs(x: int): nat { if x < 0 then -x else x }

  function Nearer(last: u32, a: u32, b: u32): u32 {
    if Abs(Distance(last, b)) < Abs(Distance(last, a)) then b else a
  }

  /** The 32-bit base a truncated one stands for, read near the newest packet. */
  function Widen(last: u32, variant: Variant, base: nat): u32 {
    var span := Span(variant);
    var cand: u32 := Plus(last, base % span - last % span);
    Nearer(last, Nearer(last, cand, Plus(cand, span)), Plus(cand, 0 - span))
  }

  function Advance(d: Decoder, s: u32): Decoder {
    if !d.haveSeq || Distance(d.lastSeq, s) > 0 then d.(lastSeq := s, haveSeq := true) else d
  }

  function StillIn(d: Decoder, fecs: seq<Stored>): seq<Stored> {
    if fecs == [] then []
    else StillIn(d, fecs[..|fecs| - 1]) + (if d.Below(fecs[|fecs| - 1].base) then [] else [fecs[|fecs| - 1]])
  }

  /** Drop what is older than the window. */
  function Evict(d: Decoder): Decoder {
    d.(media := map k | k in d.media && !d.Below(k) :: d.media[k], fecs := StillIn(d, d.fecs))
  }

  function Settle(d: Decoder): Decoder { Evict(RecoverAll(d)) }

  /** A media packet arrives; `out` of the result is what it let FEC rebuild. */
  function PushMedia(d: Decoder, s: u32, m: Media, ssrc: nat): Decoder {
    var d1 := Advance(d.(out := []), s);
    if s in d1.media then d1 else Settle(d1.(media := d1.media[s := Kept(m, ssrc)]))
  }

  predicate Knows(d: Decoder, base: u32, stride: nat, count: nat) {
    exists i :: 0 <= i < |d.fecs| && d.fecs[i].base == base && d.fecs[i].stride == stride && d.fecs[i].count == count
  }

  /** Make room for one more stored group. */
  function MakeRoom(d: Decoder): Decoder {
    if |d.fecs| < d.cfg.MaxFecs() then d else
    var e := Evict(d);
    if |e.fecs| < d.cfg.MaxFecs() then e else e.(fecs := e.fecs[1..])
  }

  function Store(d: Decoder, base: u32, p: FecPacket): Decoder {
    d.(fecs := d.fecs + [Stored(base, p.offset, p.na, p.lengthRec, p.ptRec % 128, p.tsRec, p.payload, false)])
  }

  /** An FEC packet arrives. */
  function PushFec(d: Decoder, p: FecPacket): Decoder {
    var d0 := d.(out := []);
    var base := Widen(d.lastSeq, d.cfg.variant, p.snBase);
    if p.offset == 0 || p.na <= 1 || p.na > 0x3ff || !d.cfg.GeometryOk(p.offset, p.na) then d0
    else if Knows(d0, base, p.offset, p.na) then d0
    else Settle(Store(MakeRoom(d0), base, p))
  }

  function NewDecoder(cfg: MatrixConfig, size: nat, isn: u32): Decoder {
    Decoder(cfg, size, map[], [], isn, false, [])
  }
}
