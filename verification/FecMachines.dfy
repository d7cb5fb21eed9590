/** The FEC encoder and decoder as the source runs them: accumulators XORed in place,
    a media map, a list of stored groups, and the loops that peel and evict. Each
    method is proved against its function in FecEncoder or FecDecoder. */
module FecMachines {
  import opened Arith
  import opened Serial
  import opened Bits
  import opened FlowTypes
  import opened FecCode
  import opened FecDecoder
  import opened FecPeeling
  import opened FecEncoder
  import opened FecWire

  /** XOR a payload into a buffer; the buffer's length bounds what is taken. */
  method XorInto(a: array<nat>, p: seq<nat>)
    modifies a
    ensures a[..] == XorVec(old(a[..]), Pad(p, a.Length))
  {
    hide Xor;
    var j := 0;
    while j < |p| && j < a.Length
      invariant 0 <= j <= |p| && j <= a.Length
      invariant forall k :: 0 <= k < j ==> a[k] == Xor(old(a[k]), p[k])
      invariant forall k :: j <= k < a.Length ==> a[k] == old(a[k])
    {
      a[j] := Xor(a[j], p[j]);
      j := j + 1;
    }
    forall k | 0 <= k < a.Length ensures a[k] == Xor(old(a[k]), Pad(p, a.Length)[k]) { XorZero(old(a[k])); }
  }

  // ---- the sender side ----

  class Accumulator {
    var base: u32
    var collected: nat
    var lengthClip: nat
    var ptClip: nat
    var tsClip: nat
    const payloadClip: array<nat>

    ghost function Abs(): Group
      reads this, payloadClip
    {
      Group(base, collected, [lengthClip, ptClip, tsClip] + payloadClip[..])
    }

    constructor (base: u32, size: nat)
      ensures fresh(payloadClip) && payloadClip.Length == size && Abs() == Start(base, size)
    {
      this.base, collected, lengthClip, ptClip, tsClip := base, 0, 0, 0, 0;
      payloadClip := new nat[size](_ => 0);
      new;
      assert [lengthClip, ptClip, tsClip] + payloadClip[..] == Zero(3 + size);
    }

    method Reset(base: u32)
      modifies this, payloadClip
      ensures Abs() == Start(base, payloadClip.Length)
    {
      this.base, collected, lengthClip, ptClip, tsClip := base, 0, 0, 0, 0;
      for i := 0 to payloadClip.Length
        invariant this.base == base && collected == 0 && lengthClip == 0 && ptClip == 0 && tsClip == 0
        invariant forall k :: 0 <= k < i ==> payloadClip[k] == 0
      {
        payloadClip[i] := 0;
      }
      assert [lengthClip, ptClip, tsClip] + payloadClip[..] == Zero(3 + payloadClip.Length);
    }

    method Add(m: Media)
      modifies this, payloadClip
      ensures Abs() == Clip(old(Abs()), m, payloadClip.Length)
    {
      hide Xor;
      ghost var was := Abs().sum;
      lengthClip := Xor(lengthClip, |m.payload| % 65536);
      ptClip := Xor(ptClip, m.pt % 128);
      tsClip := Xor(tsClip, m.ts);
      XorInto(payloadClip, m.payload);
      collected := collected + 1;
      assert [lengthClip, ptClip, tsClip] + payloadClip[..] == XorVec(was, Pack(m, payloadClip.Length));
    }

    method Put(cfg: MatrixConfig, direction: Direction) returns (e: Emission)
      ensures e == Emit(cfg, Abs(), direction)
    {
      var offset, na := cfg.cols, cfg.rows;
      if direction.Row? {
        offset, na := 1, cfg.cols;
      }
      e := Emission(direction, FecPacket(base % Span(cfg.variant), offset, na, lengthClip, ptClip, tsClip, payloadClip[..]));
      assert Abs().sum[3..] == payloadClip[..];
    }
  }

  class EncoderMachine {
    const cfg: MatrixConfig
    const size: nat
    const row: Accumulator
    const cols: seq<Accumulator>
    var rowBase: u32

    ghost predicate Valid()
      reads this
    {
      && cfg.Valid() && |cols| == cfg.cols && row.payloadClip.Length == size
      && (forall j :: 0 <= j < |cols| ==> cols[j].payloadClip.Length == size)
      && (forall j :: 0 <= j < |cols| ==> cols[j] != row && cols[j].payloadClip != row.payloadClip)
      && (forall i, j :: 0 <= i < j < |cols| ==> cols[i] != cols[j] && cols[i].payloadClip != cols[j].payloadClip)
    }

    ghost function Columns(): seq<Group>
      reads cols, set j | 0 <= j < |cols| :: cols[j].payloadClip
    {
      seq(|cols|, j requires 0 <= j < |cols| reads cols, set k | 0 <= k < |cols| :: cols[k].payloadClip => cols[j].Abs())
    }

    ghost function Abs(): Encoder
      reads this, row, row.payloadClip, cols, set j | 0 <= j < |cols| :: cols[j].payloadClip
    {
      Encoder(cfg, size, rowBase, row.Abs(), Columns())
    }

    constructor (cfg: MatrixConfig, size: nat, isn: u32)
      requires cfg.Valid()
      ensures Valid() && fresh(row) && fresh(row.payloadClip)
      ensures forall j :: 0 <= j < |cols| ==> fresh(cols[j]) && fresh(cols[j].payloadClip)
      ensures Abs() == NewEncoder(cfg, size, isn)
    {
      hide MatrixConfig.Valid, Start;
      this.cfg, this.size, rowBase := cfg, size, isn;
      var r := new Accumulator(isn, size);
      var cs: seq<Accumulator> := [];
      for i := 0 to cfg.cols
        invariant |cs| == i && r.payloadClip.Length == size && r.Abs() == Start(isn, size)
        invariant forall j :: 0 <= j < i ==> fresh(cs[j]) && fresh(cs[j].payloadClip)
        invariant forall j :: 0 <= j < i ==> cs[j].payloadClip.Length == size && cs[j].Abs() == Start(Plus(isn, j), size)
        invariant forall j :: 0 <= j < i ==> cs[j] != r && cs[j].payloadClip != r.payloadClip
        invariant forall j, k :: 0 <= j < k < i ==> cs[j] != cs[k] && cs[j].payloadClip != cs[k].payloadClip
      {
        var c := new Accumulator(Plus(isn, i), size);
        cs := cs + [c];
      }
      row, cols := r, cs;
      new;
      assert Columns() == seq(cfg.cols, i => Start(Plus(isn, i), size));
    }

    /** The packet joins the column at pos. */
    method JoinColumn(pos: nat, s: u32, m: Media) returns (out: seq<Emission>)
      requires Valid() && pos < |cols|
      modifies cols[pos], cols[pos].payloadClip
      ensures Valid() && (Abs(), out) == IntoColumn(old(Abs()), pos, s, m)
    {
      hide MatrixConfig.Valid, Clip, Start, Emit, Accumulator.Abs, MatrixConfig.Matrix, Distance, Plus;
      ghost var was := Columns();
      var col := cols[pos];
      assert was[pos] == col.Abs();
      var matrix := cfg.Matrix();
      GroupBase(col);
      if Distance(col.base, s) >= matrix {
        col.Reset(Plus(col.base, matrix));
      }
      col.Add(m);
      out := [];
      GroupBase(col);
      if col.collected >= cfg.rows {
        var e := col.Put(cfg, Column);
        out := [e];
        col.Reset(Plus(col.base, matrix));
      }
      assert Columns() == was[pos := col.Abs()];
    }

    method StartRow()
      requires Valid()
      modifies this, row, row.payloadClip
      ensures Valid() && Abs() == NextRow(old(Abs()))
    {
      hide MatrixConfig.Valid, Start, Accumulator.Abs;
      ghost var was := Columns();
      rowBase := Plus(rowBase, cfg.cols);
      row.Reset(rowBase);
      assert Columns() == was;
    }

    /** One media packet, in sequence order. */
    method PushPacket(s: u32, m: Media) returns (out: seq<Emission>)
      requires Valid()
      modifies this, row, row.payloadClip, cols, set j | 0 <= j < |cols| :: cols[j].payloadClip
      ensures Valid() && (Abs(), out) == Push(old(Abs()), s, m)
    {
      hide MatrixConfig.Valid, Clip, Start, Emit, Accumulator.Abs, Distance, Plus, IntoColumn, NextRow;
      if Distance(rowBase, s) >= cfg.cols {
        StartRow();
      }
      var pos := Distance(rowBase, s);
      ghost var was := Columns();
      row.Add(m);
      assert Columns() == was;
      out := [];
      if 0 <= pos < |cols| {
        out := JoinColumn(pos, s, m);
      }
      GroupBase(row);
      if row.collected >= cfg.cols {
        if !cfg.columnOnly {
          var e := row.Put(cfg, Row);
          out := out + [e];
        }
        StartRow();
      }
    }
  }

  lemma GroupBase(a: Accumulator)
    ensures a.Abs().base == a.base && a.Abs().collected == a.collected && |a.Abs().sum| == 3 + a.payloadClip.Length
  {
  }

  // ---- the receiver side ----

  lemma {:induction false} AbsentPrefix(ms: seq<u32>, i: nat, have: set<u32>)
    requires i <= |ms|
    ensures |Absent(ms[..i], have)| <= |Absent(ms, have)|
  {
    if i == |ms| {
      assert ms[..i] == ms;
    } else {
      AbsentPrefix(ms[..|ms| - 1], i, have);
      assert ms[..|ms| - 1][..i] == ms[..i];
    }
  }

  lemma AbsentNext(ms: seq<u32>, i: nat, have: set<u32>)
    requires i < |ms|
    ensures Absent(ms[..i + 1], have) == Absent(ms[..i], have) + (if ms[i] in have then [] else [ms[i]])
  {
    assert ms[..i + 1][..i] == ms[..i];
  }

  class DecoderMachine {
    const cfg: MatrixConfig
    const size: nat
    var media: map<u32, Kept>
    var fecs: seq<Stored>
    var lastSeq: u32
    var haveSeq: bool
    var out: seq<Recovered>

    ghost function Abs(): Decoder
      reads this
    {
      Decoder(cfg, size, media, fecs, lastSeq, haveSeq, out)
    }

    constructor (cfg: MatrixConfig, size: nat, isn: u32)
      ensures Abs() == NewDecoder(cfg, size, isn)
    {
      this.cfg, this.size := cfg, size;
      media, fecs, lastSeq, haveSeq, out := map[], [], isn, false, [];
    }

    /** Look for the missing members, giving up at the second. */
    method FindMissing(f: Stored) returns (miss: seq<u32>)
      ensures |Absent(f.Members(), media.Keys)| <= 1 ==> miss == Absent(f.Members(), media.Keys)
      ensures |Absent(f.Members(), media.Keys)| > 1 ==> |miss| == 2
    {
      hide Absent, Plus;
      ghost var ms := f.Members();
      miss := [];
      NoneYet(ms, media.Keys);
      for i := 0 to f.count
        invariant miss == Absent(ms[..i], media.Keys) && |miss| <= 1
      {
        var s := Plus(f.base, Mul(i, f.stride));
        AbsentNext(ms, i, media.Keys);
        if s !in media {
          miss := miss + [s];
          if |miss| > 1 {
            AbsentPrefix(ms, i + 1, media.Keys);
            return;
          }
        }
      }
      assert ms[..f.count] == ms;
    }

    /** Take the members that are held out of the group's sums. */
    method Solve(f: Stored) returns (length: nat, pt: nat, ts: nat, ssrc: nat, payload: array<nat>)
      ensures fresh(payload) && payload.Length == size
      ensures [length, pt, ts] + payload[..] == Rebuild(f.Sum(size), f.Members(), f.count, media, size)
      ensures ssrc == GroupSsrc(f.Members(), f.count, media)
    {
      hide Xor, Plus;
      ghost var ms := f.Members();
      length, pt, ts, ssrc := f.lengthRec, f.ptRec, f.tsRec, 0;
      payload := new nat[size](j requires 0 <= j => if j < |f.payload| then f.payload[j] else 0);
      assert payload[..] == Pad(f.payload, size);
      for i := 0 to f.count
        invariant [length, pt, ts] + payload[..] == Rebuild(f.Sum(size), ms, i, media, size)
        invariant ssrc == GroupSsrc(ms, i, media)
      {
        var s := Plus(f.base, Mul(i, f.stride));
        if s in media {
          ghost var was := [length, pt, ts] + payload[..];
          var m := media[s].media;
          ssrc := media[s].ssrc;
          length := Xor(length, |m.payload| % 65536);
          pt := Xor(pt, m.pt % 128);
          ts := Xor(ts, m.ts);
          XorInto(payload, m.payload);
          assert [length, pt, ts] + payload[..] == XorVec(was, Pack(m, size));
        }
      }
    }

    method TryRecover(i: nat) returns (recovered: bool)
      requires i < |fecs|
      modifies this
      ensures Abs() == FecDecoder.TryRecover(old(Abs()), i)
      ensures recovered == Attempt(old(Abs()), old(fecs)[i]).Recover?
    {
      hide Rebuild, Absent, GroupSsrc, Plus, Distance, MatrixConfig.Window, Pad;
      recovered := false;
      var f := fecs[i];
      if f.done {
        return;
      }
      if Distance(Plus(lastSeq, 0 - cfg.Window()), f.base) < 0 {
        fecs := fecs[i := f.(done := true)];
        return;
      }
      if Distance(lastSeq, Plus(f.base, Mul(f.count - 1, f.stride))) > 0 {
        return;
      }
      var miss := FindMissing(f);
      if |miss| > 1 {
        return;
      }
      if |miss| == 0 {
        fecs := fecs[i := f.(done := true)];
        return;
      }
      var length, pt, ts, ssrc, payload := Solve(f);
      ghost var v := [length, pt, ts] + payload[..];
      if length > size {
        fecs := fecs[i := f.(done := true)];
        return;
      }
      var rp := Recovered(miss[0], Media(ts, pt, payload[..length]), ssrc);
      assert v[3..3 + length] == payload[..length];
      out := out + [rp];
      media := media[miss[0] := Kept(rp.media, ssrc)];
      fecs := fecs[i := f.(done := true)];
      recovered := true;
    }

    /** Pass over the stored groups until a pass recovers nothing. */
    method RecoverAll()
      modifies this
      ensures Abs() == FecDecoder.RecoverAll(old(Abs()))
    {
      hide FecDecoder.TryRecover, Attempt;
      ghost var goal := FecDecoder.RecoverAll(Abs());
      while true
        invariant FecDecoder.RecoverAll(Abs()) == goal
        decreases Undone(fecs)
      {
        var recovered := OnePass();
        if !recovered {
          return;
        }
      }
    }

    method OnePass() returns (recovered: bool)
      modifies this
      ensures Abs() == Pass(old(Abs()), 0)
      ensures recovered == (|out| > |old(out)|)
    {
      hide FecDecoder.TryRecover, Attempt;
      recovered := false;
      var n := |fecs|;
      for i := 0 to n
        invariant |fecs| == n && Pass(Abs(), i) == Pass(old(Abs()), 0)
        invariant |out| >= |old(out)| && recovered == (|out| > |old(out)|)
      {
        ghost var d := Abs();
        PassUnfold(d, i);
        OutGrows(d, i);
        var more := TryRecover(i);
        if more {
          recovered := true;
        }
      }
    }

    /** Drop media and groups older than the window. */
    method Evict()
      modifies this
      ensures Abs() == FecDecoder.Evict(old(Abs()))
    {
      hide MatrixConfig.Window, Plus, Distance, Decoder.Below;
      ghost var d := Abs();
      var lo := Plus(lastSeq, 0 - cfg.Window());
      FloorIs(d);
      var todo := media.Keys;
      while todo != {}
        invariant todo <= d.media.Keys && fecs == d.fecs && lastSeq == d.lastSeq && haveSeq == d.haveSeq && out == d.out
        invariant forall k :: k in media <==> k in d.media && (k in todo || !d.Below(k))
        invariant forall k :: k in media ==> media[k] == d.media[k]
        decreases todo
      {
        var s :| s in todo;
        BelowIs(d, s);
        if Distance(lo, s) < 0 {
          media := media - {s};
        }
        todo := todo - {s};
      }
      assert media == FecDecoder.Evict(d).media;
      var keep: seq<Stored> := [];
      for i := 0 to |fecs|
        invariant fecs == d.fecs && lastSeq == d.lastSeq && haveSeq == d.haveSeq && out == d.out
        invariant media == FecDecoder.Evict(d).media && keep == StillIn(d, fecs[..i])
      {
        assert fecs[..i + 1][..i] == fecs[..i];
        BelowIs(d, fecs[i].base);
        if Distance(lo, fecs[i].base) >= 0 {
          keep := keep + [fecs[i]];
        }
      }
      assert fecs[..|fecs|] == fecs;
      fecs := keep;
    }

    method Advance(s: u32)
      modifies this
      ensures Abs() == FecDecoder.Advance(old(Abs()), s)
    {
      if !haveSeq || Distance(lastSeq, s) > 0 {
        lastSeq := s;
        haveSeq := true;
      }
    }

    /** A media packet arrives. */
    method PushMedia(s: u32, m: Media, ssrc: nat) returns (r: seq<Recovered>)
      modifies this
      ensures Abs() == FecDecoder.PushMedia(old(Abs()), s, m, ssrc) && r == out
    {
      hide FecDecoder.RecoverAll, FecDecoder.Evict;
      out := [];
      Advance(s);
      if s in media {
        return [];
      }
      media := media[s := Kept(m, ssrc)];
      RecoverAll();
      Evict();
      return out;
    }

    method Widened(base: nat) returns (best: u32)
      ensures best == Widen(lastSeq, cfg.variant, base)
    {
      hide Distance, Plus;
      var span: int := Span(cfg.variant);
      var cand: u32 := Plus(lastSeq, base % span - lastSeq % span);
      best := cand;
      var cs := [Plus(cand, span), Plus(cand, 0 - span)];
      for i := 0 to 2
        invariant i == 0 ==> best == cand
        invariant i == 1 ==> best == Nearer(lastSeq, cand, cs[0])
        invariant i == 2 ==> best == Nearer(lastSeq, Nearer(lastSeq, cand, cs[0]), cs[1])
      {
        if FecDecoder.Abs(Distance(lastSeq, cs[i])) < FecDecoder.Abs(Distance(lastSeq, best)) {
          best := cs[i];
        }
      }
    }

    method KnowsGroup(base: u32, stride: nat, count: nat) returns (known: bool)
      ensures known == Knows(Abs(), base, stride, count)
    {
      for i := 0 to |fecs|
        invariant forall j :: 0 <= j < i ==> !(fecs[j].base == base && fecs[j].stride == stride && fecs[j].count == count)
      {
        if fecs[i].base == base && fecs[i].stride == stride && fecs[i].count == count {
          return true;
        }
      }
      return false;
    }

    /** An FEC packet arrives from the wire. */
    method PushFec(wire: Octets) returns (r: seq<Recovered>)
      modifies this
      ensures match Parse(cfg.variant, wire)
        case None => Abs() == old(Abs()).(out := []) && r == []
        case Some(p) => Abs() == FecDecoder.PushFec(old(Abs()), p) && r == out
    {
      hide FecDecoder.RecoverAll, FecDecoder.Evict, Parse, Widen, Knows, MatrixConfig.GeometryOk;
      out := [];
      var parsed := Parse(cfg.variant, wire);
      if parsed.None? {
        return [];
      }
      var p := parsed.value;
      var base := Widened(p.snBase);
      if p.offset == 0 || p.na <= 1 || p.na > 0x3ff || !cfg.GeometryOk(p.offset, p.na) {
        return [];
      }
      var known := KnowsGroup(base, p.offset, p.na);
      if known {
        return [];
      }
      if |fecs| >= cfg.MaxFecs() {
        Evict();
        if |fecs| >= cfg.MaxFecs() {
          fecs := fecs[1..];
        }
      }
      fecs := fecs + [Stored(base, p.offset, p.na, p.lengthRec, p.ptRec % 128, p.tsRec, p.payload, false)];
      RecoverAll();
      Evict();
      return out;
    }
  }

  lemma NoneYet(ms: seq<u32>, have: set<u32>)
    ensures Absent(ms[..0], have) == []
  {
  }

  lemma OutGrows(d: Decoder, i: nat)
    requires i < |d.fecs|
    ensures |FecDecoder.TryRecover(d, i).out| == |d.out| + (if Attempt(d, d.fecs[i]).Recover? then 1 else 0)
  {
    hide Attempt;
  }

  lemma FloorIs(d: Decoder)
    ensures d.Floor() == Plus(d.lastSeq, 0 - d.cfg.Window())
  {
  }

  lemma BelowIs(d: Decoder, k: u32)
    ensures d.Below(k) == (Distance(d.Floor(), k) < 0)
  {
  }
}
