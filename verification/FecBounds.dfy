/** The decoder's memory bounds, for any packets whatever: the stored groups never
    exceed their cap, and media stays in the window except after one exact jump. */
module FecBounds {
  import opened Arith
  import opened Serial
  import opened FecCode
  import opened FecDecoder
  import opened FecPeeling
  import opened FecRun

  /** The stored groups have the configured geometry and are within the cap. */
  predicate Bounded(d: Decoder) {
    && d.cfg.Valid() && |d.fecs| <= d.cfg.MaxFecs()
    && forall i :: 0 <= i < |d.fecs| ==> d.cfg.GeometryOk(d.fecs[i].stride, d.fecs[i].count)
  }

  /** Media lies in [lastSeq - window, lastSeq]. */
  predicate WindowKept(d: Decoder) {
    && (!d.haveSeq ==> d.media == map[])
    && forall k :: k in d.media ==> d.InWindow(k)
  }

  // ---- peeling any input ----

  /** From d to r only media in the window was added. */
  predicate Filled(d: Decoder, r: Decoder) {
    && SameGroups(d, r) && d.media.Keys <= r.media.Keys
    && forall k :: k in r.media && k !in d.media ==> d.InWindow(k)
  }

  lemma FilledBounded(d: Decoder, r: Decoder)
    requires Bounded(d) && SameGroups(d, r)
    ensures Bounded(r)
  {
    hide MatrixConfig.GeometryOk, MatrixConfig.Valid, MatrixConfig.Window;
    forall i | 0 <= i < |r.fecs| ensures r.cfg.GeometryOk(r.fecs[i].stride, r.fecs[i].count) {
      assert r.fecs[i].(done := d.fecs[i].done) == d.fecs[i];
    }
  }

  lemma TryFills(d: Decoder, i: nat)
    requires Bounded(d) && i < |d.fecs|
    ensures Filled(d, TryRecover(d, i))
  {
    hide Rebuild, Unpack, Pack, MatrixConfig.Window, MatrixConfig.Valid, MatrixConfig.GeometryOk, GroupSsrc,
         Decoder.InWindow, Plus, Mul;
    var f := d.fecs[i];
    if Attempt(d, f).Recover? {
      var ms := f.Members();
      AbsentWithin(ms, d.media.Keys);
      var k := Attempt(d, f).packet.seqno;
      assert k in ms;
      var j :| 0 <= j < f.count && ms[j] == k;
      MulMono(j, f.count - 1, f.stride);
      EligibleAt(d, f, Mul(j, f.stride));
    }
  }

  lemma {:induction false} PassFills(d: Decoder, i: nat)
    requires Bounded(d) && i <= |d.fecs|
    ensures Filled(d, Pass(d, i))
    decreases |d.fecs| - i
  {
    hide TryRecover, Bounded, Decoder.InWindow;
    PassUnfold(d, i);
    if i < |d.fecs| {
      var m := TryRecover(d, i);
      TryFills(d, i);
      FilledBounded(d, m);
      PassFills(m, i + 1);
      SameWindow(d, m);
    }
  }

  lemma SameWindow(d: Decoder, m: Decoder)
    requires SameGroups(d, m)
    ensures forall k :: d.InWindow(k) == m.InWindow(k)
  {
  }

  lemma {:induction false} PeelFills(d: Decoder)
    requires Bounded(d)
    ensures Filled(d, RecoverAll(d))
    decreases Undone(d.fecs)
  {
    hide Pass, Bounded, Decoder.InWindow;
    PassFills(d, 0);
    var m := Pass(d, 0);
    FilledBounded(d, m);
    SameWindow(d, m);
    if |m.out| > |d.out| { PeelFills(m); }
  }

  // ---- the cap on stored groups ----

  lemma SettleBounded(d: Decoder)
    requires Bounded(d)
    ensures Bounded(Settle(d))
  {
    hide MatrixConfig.GeometryOk, MatrixConfig.Valid, RecoverAll, Decoder.Below;
    PeelFills(d);
    var r := RecoverAll(d);
    FilledBounded(d, r);
    EvictBounded(r);
  }

  lemma EvictBounded(r: Decoder)
    requires Bounded(r)
    ensures Bounded(Evict(r)) && |Evict(r).fecs| <= |r.fecs| && Evict(r).cfg == r.cfg
  {
    hide MatrixConfig.GeometryOk, MatrixConfig.Valid, Decoder.Below, StillIn;
    StillInFrom(r, r.fecs);
    forall i | 0 <= i < |Evict(r).fecs| ensures r.cfg.GeometryOk(Evict(r).fecs[i].stride, Evict(r).fecs[i].count) {
      assert Evict(r).fecs[i] in r.fecs;
    }
  }

  /** Whatever arrives, no more than MaxFecs groups are stored. */
  lemma GroupsBounded(d: Decoder, s: u32, m: Media, ssrc: nat, p: FecPacket)
    requires Bounded(d)
    ensures Bounded(PushMedia(d, s, m, ssrc)) && Bounded(PushFec(d, p))
  {
    hide MatrixConfig.GeometryOk, MatrixConfig.Valid, Settle, Evict, Widen;
    var d1 := Advance(d.(out := []), s);
    SettleBounded(d1.(media := d1.media[s := Kept(m, ssrc)]));
    var d0 := d.(out := []);
    EvictBounded(d0);
    if Settles(d, p) {
      var base := Widen(d.lastSeq, d.cfg.variant, p.snBase);
      assert Bounded(Store(MakeRoom(d0), base, p));
      SettleBounded(Store(MakeRoom(d0), base, p));
    }
  }

  // ---- the window ----

  /** After peeling and eviction the window holds exactly if each packet held before
      is in it or is dropped. */
  lemma SettleWindow(d: Decoder)
    requires Bounded(d) && d.haveSeq
    ensures WindowKept(Settle(d)) <==> forall k :: k in d.media ==> d.InWindow(k) || d.Below(k)
  {
    hide MatrixConfig.GeometryOk, MatrixConfig.Valid, RecoverAll, Decoder.Below, Decoder.InWindow, StillIn;
    PeelFills(d);
    var r := RecoverAll(d);
    forall k ensures r.InWindow(k) == d.InWindow(k) && r.Below(k) == d.Below(k) { SameTests(d, r, k); }
    forall k ensures Evict(r).InWindow(k) == d.InWindow(k) { SameTests(d, Evict(r), k); }
    if WindowKept(Settle(d)) {
      forall k | k in d.media ensures d.InWindow(k) || d.Below(k) {
        if !d.Below(k) { assert k in Evict(r).media; }
      }
    }
  }

  /** The one jump that defeats the floor test: to the exact antipode, while the very
      last packet of the old window is still held. */
  predicate AntipodeJump(d: Decoder, s: u32) {
    d.haveSeq && Distance(d.lastSeq, s) == 0x8000_0000 && d.Floor() in d.media
  }

  lemma JumpTests(last: u32, w: nat, s: u32, k: u32)
    requires w <= 19028 && Fwd(k, last) <= w && Distance(last, s) > 0
    ensures Fwd(k, s) <= w || Distance(Plus(s, 0 - w), k) < 0 <==>
      !(Distance(last, s) == 0x8000_0000 && k == Plus(last, 0 - w))
  {
  }

  lemma OldTests(d: Decoder, d1: Decoder, s: u32, k: u32)
    requires d.cfg.Valid() && d1.cfg == d.cfg && d1.lastSeq == s && d.InWindow(k) && Distance(d.lastSeq, s) > 0
    ensures d1.InWindow(k) || d1.Below(k) <==> !(Distance(d.lastSeq, s) == 0x8000_0000 && k == d.Floor())
  {
    hide MatrixConfig.Window, MatrixConfig.Valid, Plus, Distance, Fwd;
    WindowBound(d.cfg);
    JumpTests(d.lastSeq, d.cfg.Window(), s, k);
  }

  /** A media packet that does not advance the window is in it or below it. */
  lemma LateTests(d: Decoder, s: u32)
    requires d.cfg.Valid() && Distance(d.lastSeq, s) <= 0
    ensures d.InWindow(s) || d.Below(s)
  {
    hide MatrixConfig.Window, MatrixConfig.Valid;
    WindowBound(d.cfg);
    LateTestsAt(d.lastSeq, d.cfg.Window(), s);
  }

  lemma LateTestsAt(last: u32, w: nat, s: u32)
    requires w <= 19028 && Distance(last, s) <= 0
    ensures Fwd(s, last) <= w || Distance(Plus(last, 0 - w), s) < 0
  {
  }

  /** For any media packet whatever, the window is kept if and only if the packet is
      not that one jump. */
  lemma MediaWindow(d: Decoder, s: u32, m: Media, ssrc: nat)
    requires Bounded(d) && WindowKept(d)
    ensures WindowKept(PushMedia(d, s, m, ssrc)) <==> !AntipodeJump(d, s)
  {
    hide MatrixConfig.Window, MatrixConfig.Valid, MatrixConfig.GeometryOk, Decoder.Below, Decoder.InWindow,
         Settle, Plus, Distance, Fwd, Decoder.Floor;
    var d1 := Advance(d.(out := []), s);
    var d2 := d1.(media := d1.media[s := Kept(m, ssrc)]);
    WindowFacts(d1, s);
    forall k ensures d2.InWindow(k) == d1.InWindow(k) && d2.Below(k) == d1.Below(k) { SameTests(d1, d2, k); }
    forall k ensures d.(out := []).InWindow(k) == d.InWindow(k) { SameTests(d, d.(out := []), k); }
    if d.haveSeq && Distance(d.lastSeq, s) > 0 {
      forall k | k in d.media ensures d1.InWindow(k) || d1.Below(k) <==>
        !(Distance(d.lastSeq, s) == 0x8000_0000 && k == d.Floor())
      {
        OldTests(d, d1, s, k);
      }
      if s in d.media { WindowFacts(d, s); }
    } else if d.haveSeq {
      LateTests(d1, s);
    }
    SettleWindow(d2);
  }

  lemma WindowFacts(d: Decoder, s: u32)
    requires d.cfg.Valid()
    ensures d.InWindow(d.lastSeq) && (d.InWindow(s) ==> Distance(d.lastSeq, s) <= 0)
  {
    if d.InWindow(s) { InWindowNotAhead(d, s); }
  }

  /** With no media no group can be rebuilt: every group has at least two members. */
  lemma {:induction false} PassOnNothing(d: Decoder, i: nat)
    requires Bounded(d) && d.media == map[] && i <= |d.fecs|
    ensures Pass(d, i).media == map[] && Pass(d, i).out == d.out
    decreases |d.fecs| - i
  {
    hide Rebuild, Unpack, MatrixConfig.GeometryOk, MatrixConfig.Valid, MatrixConfig.Window, GroupSsrc,
         Decoder.Below, Plus, Mul, Absent, Distance;
    PassUnfold(d, i);
    if i < |d.fecs| {
      GroupSpan(d.cfg, d.fecs[i].stride, d.fecs[i].count);
      NonePresent(d.fecs[i].Members(), d.media.Keys);
      var m := TryRecover(d, i);
      TryFills(d, i);
      FilledBounded(d, m);
      PassOnNothing(m, i + 1);
    }
  }

  lemma SettleNothing(d: Decoder)
    requires Bounded(d) && d.media == map[]
    ensures Settle(d).media == map[]
  {
    hide Pass, Bounded, StillIn, Decoder.Below;
    PassOnNothing(d, 0);
  }

  /** For any FEC packet whatever, the window is kept. */
  lemma FecWindow(d: Decoder, p: FecPacket)
    requires Bounded(d) && WindowKept(d)
    ensures WindowKept(PushFec(d, p))
  {
    hide MatrixConfig.GeometryOk, MatrixConfig.Valid, Settle, Evict, Widen, Decoder.Below, Decoder.InWindow;
    var d0 := d.(out := []);
    forall k ensures d0.InWindow(k) == d.InWindow(k) { SameTests(d, d0, k); }
    EvictBounded(d0);
    if Settles(d, p) {
      var e := Store(MakeRoom(d0), Widen(d.lastSeq, d.cfg.variant, p.snBase), p);
      RoomMedia(d0);
      if d.haveSeq {
        forall k | k in e.media ensures e.InWindow(k) || e.Below(k) { SameTests(d0, e, k); }
        SettleWindow(e);
      } else {
        assert e.media.Keys == {};
        SettleNothing(e);
      }
    }
  }

  lemma RoomMedia(d: Decoder)
    ensures var e := MakeRoom(d);
      e.cfg == d.cfg && e.lastSeq == d.lastSeq && e.haveSeq == d.haveSeq && e.media.Keys <= d.media.Keys
  {
  }

  /** A new decoder that hears packets 0 and 60. */
  function Example(): Decoder {
    PushMedia(PushMedia(NewDecoder(MatrixConfig(4, 4, false, St20221), 8, 0), 0, Media(0, 0, []), 0), 60, Media(0, 0, []), 0)
  }

  lemma ExampleIs()
    ensures var d := Example();
      && d.cfg == MatrixConfig(4, 4, false, St20221) && d.fecs == [] && d.lastSeq == 60 && d.haveSeq
      && d.media.Keys == {0, 60}
  {
    hide Unpack, Rebuild;
  }

  /** It then hears the antipode of 60. */
  lemma AntipodeEscapes()
    ensures var d := Example();
      && Bounded(d) && WindowKept(d)
      && !WindowKept(PushMedia(d, 0x8000_003C, Media(0, 0, []), 0))
  {
    hide PushMedia, Example;
    var d := Example();
    ExampleIs();
    assert d.cfg.Matrix() == 16 && d.cfg.Window() == 60 && d.Floor() == 0;
    MediaWindow(d, 0x8000_003C, Media(0, 0, []), 0);
  }
}
