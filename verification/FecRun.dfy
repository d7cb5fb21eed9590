/** The decoder over whole runs: media of one stream and genuine FEC packets arrive
    in any order, any number of times. Every packet rebuilt is the one sent and had
    never been held before, the window holds exactly recent packets, and no stored
    group is ever left with a single missing member. */
module FecRun {
  import opened Arith
  import opened Serial
  import opened Bits
  import opened FecCode
  import opened FecDecoder
  import opened FecPeeling

  // ---- positions and sequence numbers ----

  lemma KeyFwd(st: Stream, p: int, q: int)
    ensures Fwd(st.Key(p), st.Key(q)) == (q - p) % 0x1_0000_0000
  {
    KeyShift(st, p, q - p);
    FwdPlus(st.Key(p), q - p);
  }

  lemma KeyDistance(st: Stream, p: int, q: int)
    requires -0x8000_0000 < q - p <= 0x8000_0000
    ensures Distance(st.Key(p), st.Key(q)) == q - p
  {
    KeyShift(st, p, q - p);
    DistancePlus(st.Key(p), q - p);
  }

  /** Reading a sequence number near `last` gives a position that carries it. */
  lemma PosKey(v: View, k: u32)
    ensures v.st.Key(v.Pos(k)) == k
    ensures -0x8000_0000 < v.Pos(k) - v.last <= 0x8000_0000
  {
    PlusDistance(v.st.Key(v.last), k);
    KeyShift(v.st, v.last, v.Pos(k) - v.last);
  }

  /** A position is read back from its sequence number if it is near. */
  lemma PosOfKey(v: View, p: int)
    requires -0x8000_0000 < p - v.last <= 0x8000_0000
    ensures v.Pos(v.st.Key(p)) == p
  {
    KeyDistance(v.st, v.last, p);
  }

  lemma FloorKey(v: View, d: Decoder)
    requires d.lastSeq == v.st.Key(v.last)
    ensures d.Floor() == v.st.Key(v.last - d.cfg.Window())
  {
    KeyShift(v.st, v.last, 0 - d.cfg.Window());
  }

  /** The window tests, read on positions. */
  lemma WindowTests(v: View, d: Decoder, q: int)
    requires d.lastSeq == v.st.Key(v.last) && d.cfg.Valid()
    requires -0x8000_0000 < q - v.last + d.cfg.Window() && q - v.last < 0xF000_0000
    ensures d.InWindow(v.st.Key(q)) <==> v.last - d.cfg.Window() <= q <= v.last
    ensures d.Below(v.st.Key(q)) <==> q < v.last - d.cfg.Window() || q > v.last - d.cfg.Window() + 0x8000_0000
  {
    hide MatrixConfig.Window, MatrixConfig.Valid, Stream.Key, Fwd, Decoder.Floor;
    WindowBound(d.cfg);
    FloorKey(v, d);
    KeyFwd(v.st, q, v.last);
    KeyFwd(v.st, v.last - d.cfg.Window(), q);
    OneTurn(v.last - q);
    OneTurn(q - (v.last - d.cfg.Window()));
  }

  lemma OneTurn(x: int)
    requires -0x1_0000_0000 <= x < 0x1_0000_0000
    ensures x % 0x1_0000_0000 == if x < 0 then x + 0x1_0000_0000 else x
  {
  }

  // ---- what holds between calls ----

  predicate GroupOk(v: View, d: Decoder, f: Stored) {
    && d.cfg.GeometryOk(f.stride, f.count)
    && !d.Below(f.base) && Genuine(v, f)
    && (!d.haveSeq ==> Distance(d.lastSeq, f.base) <= 0x80_0000)
    && (f.done ==> Resolved(d, f) && d.Eligible(f))
  }

  predicate MediaOk(v: View, d: Decoder, k: u32, ssrc: nat)
    requires k in d.media
  {
    d.InWindow(k) && v.Sent(k) && d.media[k] == Kept(v.Orig(k), ssrc)
  }

  /** The decoder holds genuine recent packets and genuine groups, peeled. */
  predicate Tracked(v: View, d: Decoder, ssrc: nat) {
    && v.Valid() && d.cfg.Valid() && d.size == v.size && d.lastSeq == v.st.Key(v.last)
    && (!d.haveSeq ==> d.media == map[])
    && (forall k :: k in d.media ==> MediaOk(v, d, k, ssrc))
    && (forall i :: 0 <= i < |d.fecs| ==> GroupOk(v, d, d.fecs[i]))
    && |d.fecs| <= d.cfg.MaxFecs()
    && ClosedUnder(d.media.Keys, d)
  }

  /** The media packet at position p may arrive: it is within half the sequence
      space of the newest one seen. */
  predicate Arrives(v: View, p: int) {
    v.st.Has(p) && -0x8000_0000 < p - v.last < 0x8000_0000
  }

  /** The position of the newest packet after p arrives. */
  function Newest(v: View, d: Decoder, p: int): int {
    if !d.haveSeq || p > v.last then p else v.last
  }

  // ---- seen from a newer packet ----

  /** Decoder d1, as d but anchored at w.last. */
  predicate Anchored(v: View, d: Decoder, w: View, d1: Decoder) {
    && w.st == v.st && w.size == v.size
    && d1.cfg == d.cfg && d1.size == d.size && d1.fecs == d.fecs && d1.media == d.media
    && d1.lastSeq == v.st.Key(w.last) && d1.haveSeq
    && -0x8000_0000 < w.last - v.last < 0x8000_0000 && (d.haveSeq ==> w.last >= v.last)
  }

  lemma AdvanceAnchors(v: View, d: Decoder, p: int)
    requires d.lastSeq == v.st.Key(v.last) && Arrives(v, p)
    ensures Anchored(v, d, v.(last := Newest(v, d, p)), Advance(d, v.st.Key(p)))
  {
    KeyDistance(v.st, v.last, p);
  }

  /** A packet held before, if it is in the new window, is at the same position. */
  lemma HeldAt(v: View, d: Decoder, w: View, d1: Decoder, k: u32, ssrc: nat)
    requires Tracked(v, d, ssrc) && Anchored(v, d, w, d1) && k in d.media
    ensures v.last - d.cfg.Window() <= v.Pos(k) <= v.last <= w.last
    ensures d1.InWindow(k) <==> v.Pos(k) >= w.last - d.cfg.Window()
    ensures d1.Below(k) <==> v.Pos(k) < w.last - d.cfg.Window()
    ensures d1.InWindow(k) ==> w.Pos(k) == v.Pos(k)
  {
    hide MatrixConfig.Window, MatrixConfig.Valid, View.Pos, Decoder.InWindow, Decoder.Below, ClosedUnder, Genuine,
         Stream.Key, Distance;
    WindowBound(d.cfg);
    assert MediaOk(v, d, k, ssrc);
    PosKey(v, k);
    WindowTests(v, d, v.Pos(k));
    WindowTests(w, d1, v.Pos(k));
    if d1.InWindow(k) { PosOfKey(w, v.Pos(k)); }
  }

  /** A stored group, if its base is not below the new floor, is where it was. */
  lemma GroupAt(v: View, d: Decoder, w: View, d1: Decoder, i: nat, ssrc: nat)
    requires Tracked(v, d, ssrc) && Anchored(v, d, w, d1) && i < |d.fecs| && !d1.Below(d.fecs[i].base)
    ensures w.Pos(d.fecs[i].base) == v.Pos(d.fecs[i].base) && Genuine(w, d.fecs[i])
  {
    hide MatrixConfig.Window, MatrixConfig.Valid, Decoder.InWindow, ClosedUnder, Stream.Key, Distance, GroupSum;
    var f := d.fecs[i];
    assert GroupOk(v, d, f);
    WindowBound(d.cfg);
    NotBelow(v, d, f.base);
    var q := v.Pos(f.base);
    PosKey(v, f.base);
    WindowTests(w, d1, q);
    PosOfKey(w, q);
  }

  lemma NotBelow(v: View, d: Decoder, k: u32)
    requires d.lastSeq == v.st.Key(v.last) && d.cfg.Valid() && !d.Below(k)
    ensures v.last - d.cfg.Window() <= v.Pos(k) <= v.last - d.cfg.Window() + 0x8000_0000
    ensures v.Pos(k) == v.last + Distance(d.lastSeq, k)
  {
    hide MatrixConfig.Window, MatrixConfig.Valid, Distance, Stream.Key;
    WindowBound(d.cfg);
    FloorKey(v, d);
    var o := Distance(d.Floor(), k);
    PlusDistance(d.Floor(), k);
    var q := v.last - d.cfg.Window() + o;
    KeyShift(v.st, v.last - d.cfg.Window(), o);
    PosOfKey(v, q);
  }

  // ---- one source ----

  predicate OneSource(d: Decoder, ssrc: nat) {
    forall k :: k in d.media ==> d.media[k].ssrc == ssrc
  }

  lemma {:induction false} NonePresent(ms: seq<u32>, have: set<u32>)
    requires forall k :: k in ms ==> k !in have
    ensures |Absent(ms, have)| == |ms|
  {
    if ms != [] { NonePresent(ms[..|ms| - 1], have); }
  }

  lemma {:induction false} GroupSsrcIs(d: Decoder, ms: seq<u32>, n: nat, ssrc: nat)
    requires OneSource(d, ssrc) && n <= |ms| && exists i :: 0 <= i < n && ms[i] in d.media
    ensures GroupSsrc(ms, n, d.media) == ssrc
  {
    if ms[n - 1] !in d.media { GroupSsrcIs(d, ms, n - 1, ssrc); }
  }

  lemma TryKeepsSource(v: View, d: Decoder, i: nat, ssrc: nat)
    requires Ready(v, d) && i < |d.fecs| && OneSource(d, ssrc)
    ensures OneSource(TryRecover(d, i), ssrc)
  {
    hide Rebuild, Unpack, Pack, MatrixConfig.Window, Genuine, MatrixConfig.GeometryOk, MatrixConfig.Valid, GroupSsrc;
    if Attempt(d, d.fecs[i]).Recover? {
      var f := d.fecs[i];
      assert StoredOk(v, d, f);
      GroupSpan(d.cfg, f.stride, f.count);
      if forall k :: k in f.Members() ==> k !in d.media { NonePresent(f.Members(), d.media.Keys); }
      GroupSsrcIs(d, f.Members(), f.count, ssrc);
    }
  }

  lemma {:induction false} PassKeepsSource(v: View, d: Decoder, i: nat, ssrc: nat)
    requires Ready(v, d) && i <= |d.fecs| && OneSource(d, ssrc)
    ensures OneSource(Pass(d, i), ssrc)
    decreases |d.fecs| - i
  {
    hide Ready, Gained, Attempt, OneSource, Pass;
    PassUnfold(d, i);
    if i < |d.fecs| {
      TryRecoverReady(v, d, i);
      TryKeepsSource(v, d, i, ssrc);
      PassKeepsSource(v, TryRecover(d, i), i + 1, ssrc);
    }
  }

  lemma {:induction false} PeelKeepsSource(v: View, d: Decoder, ssrc: nat)
    requires Ready(v, d) && OneSource(d, ssrc)
    ensures OneSource(RecoverAll(d), ssrc)
    decreases Undone(d.fecs)
  {
    hide Ready, Gained, OneSource, Pass;
    PassKeepsSource(v, d, 0, ssrc);
    PassReady(v, d, 0);
    if |Pass(d, 0).out| > |d.out| { PeelKeepsSource(v, Pass(d, 0), ssrc); }
  }

  // ---- peel, then drop what is old ----

  predicate HeldOk(v: View, d: Decoder, k: u32, ssrc: nat)
    requires k in d.media
  {
    && (d.InWindow(k) || d.Below(k)) && d.media[k].ssrc == ssrc
    && (d.InWindow(k) ==> v.Sent(k) && d.media[k].media == v.Orig(k))
  }

  predicate GroupReady(v: View, d: Decoder, f: Stored) {
    && d.cfg.GeometryOk(f.stride, f.count)
    && (!d.Below(f.base) ==>
          && Genuine(v, f)
          && (!d.haveSeq ==> Distance(d.lastSeq, f.base) <= 0x80_0000)
          && (f.done ==> Resolved(d, f) && d.Eligible(f)))
  }

  /** What holds just before peeling. */
  predicate Peelable(v: View, d: Decoder, ssrc: nat) {
    && v.Valid() && d.cfg.Valid() && d.size == v.size && d.lastSeq == v.st.Key(v.last)
    && (!d.haveSeq ==> d.media == map[])
    && (forall k :: k in d.media ==> HeldOk(v, d, k, ssrc))
    && (forall i :: 0 <= i < |d.fecs| ==> GroupReady(v, d, d.fecs[i]))
    && |d.fecs| <= d.cfg.MaxFecs()
  }

  lemma PeelableReady(v: View, d: Decoder, ssrc: nat)
    requires Peelable(v, d, ssrc)
    ensures Ready(v, d) && OneSource(d, ssrc)
  {
    hide MatrixConfig.Window, MatrixConfig.GeometryOk, MatrixConfig.Valid, Genuine, View.Pos, Resolved;
    forall i | 0 <= i < |d.fecs| ensures StoredOk(v, d, d.fecs[i]) { assert GroupReady(v, d, d.fecs[i]); }
    forall k | k in d.media ensures d.media[k].ssrc == ssrc { assert HeldOk(v, d, k, ssrc); }
  }

  lemma {:induction false} StillInFrom(d: Decoder, fecs: seq<Stored>)
    ensures |StillIn(d, fecs)| <= |fecs|
    ensures forall f :: f in StillIn(d, fecs) <==> f in fecs && !d.Below(f.base)
  {
    if fecs != [] {
      StillInFrom(d, fecs[..|fecs| - 1]);
      assert fecs == fecs[..|fecs| - 1] + [fecs[|fecs| - 1]];
    }
  }

  lemma InNotBelow(d: Decoder, k: u32)
    requires d.cfg.Valid() && d.InWindow(k)
    ensures !d.Below(k)
  {
    hide MatrixConfig.Window, MatrixConfig.Valid;
    WindowBound(d.cfg);
    InNotBelowAt(d.lastSeq, d.cfg.Window(), k);
  }

  lemma InNotBelowAt(last: u32, w: nat, k: u32)
    requires w <= 19028 && Fwd(k, last) <= w
    ensures Distance(Plus(last, 0 - w), k) >= 0
  {
  }

  lemma InWindowNotAhead(d: Decoder, k: u32)
    requires d.cfg.Valid() && d.InWindow(k)
    ensures Distance(d.lastSeq, k) <= 0
  {
    hide MatrixConfig.Window, MatrixConfig.Valid;
    WindowBound(d.cfg);
  }

  lemma {:induction false} AbsentSame(ms: seq<u32>, a: set<u32>, b: set<u32>)
    requires forall k :: k in ms ==> (k in a <==> k in b)
    ensures Absent(ms, a) == Absent(ms, b)
  {
    if ms != [] { AbsentSame(ms[..|ms| - 1], a, b); }
  }

  /** Eviction takes nothing from an eligible group. */
  lemma EvictSpares(d: Decoder, f: Stored)
    requires d.cfg.Valid() && d.cfg.GeometryOk(f.stride, f.count) && d.Eligible(f)
    ensures Absent(f.Members(), Evict(d).media.Keys) == Absent(f.Members(), d.media.Keys)
  {
    hide MatrixConfig.Window, MatrixConfig.GeometryOk, MatrixConfig.Valid, Decoder.InWindow, Decoder.Below,
         Decoder.Eligible, StillIn, Absent, Plus, Mul;
    forall k | k in f.Members() ensures !d.Below(k) {
      var i :| 0 <= i < f.count && f.Members()[i] == k;
      MulMono(i, f.count - 1, f.stride);
      EligibleAt(d, f, Mul(i, f.stride));
      InNotBelow(d, k);
    }
    AbsentSame(f.Members(), Evict(d).media.Keys, d.media.Keys);
  }

  lemma EmptyStays(v: View, d: Decoder, ssrc: nat)
    requires Peelable(v, d, ssrc) && d.media == map[]
    ensures RecoverAll(d).media == map[]
  {
    hide MatrixConfig.Window, Genuine, Decoder.Eligible, View.Pos, RecoverAll, MatrixConfig.GeometryOk,
         MatrixConfig.Valid;
    PeelableReady(v, d, ssrc);
    forall i | 0 <= i < |d.fecs| ensures |Absent(d.fecs[i].Members(), {})| != 1 {
      assert GroupReady(v, d, d.fecs[i]);
      GroupSpan(d.cfg, d.fecs[i].stride, d.fecs[i].count);
      NonePresent(d.fecs[i].Members(), {});
    }
    assert d.media.Keys == {};
    RecoverAllLeast(v, d, {});
  }

  /** A done, stored group is complete. */
  lemma DoneResolved(v: View, d: Decoder, r: Decoder, i: nat, ssrc: nat)
    requires Peelable(v, d, ssrc) && r == RecoverAll(d) && i < |d.fecs| == |r.fecs| && !d.Below(d.fecs[i].base)
    requires Ready(v, r) && Gained(v, d, r)
    ensures r.fecs[i].done ==> Resolved(r, r.fecs[i]) && r.Eligible(r.fecs[i])
  {
    hide MatrixConfig.Window, MatrixConfig.GeometryOk, MatrixConfig.Valid, Genuine, View.Pos, RecoverAll, Rebuilt,
         PutOut, Absent;
    var f := d.fecs[i];
    assert GroupReady(v, d, f);
    SameMember(d, r, i);
    if f.done {
      AbsentShrinks(f.Members(), d.media.Keys, r.media.Keys);
    } else if r.fecs[i].done {
      assert Decided(d, f);
      assert StoredOk(v, r, r.fecs[i]);
    }
  }

  lemma {:induction false} ResolvedNeedsMedia(d: Decoder, f: Stored)
    requires d.cfg.Valid() && d.cfg.GeometryOk(f.stride, f.count) && Resolved(d, f)
    ensures d.media != map[]
  {
    hide MatrixConfig.GeometryOk, MatrixConfig.Valid;
    GroupSpan(d.cfg, f.stride, f.count);
    AbsentWithin(f.Members(), d.media.Keys);
    assert f.Members()[0] in f.Members();
  }

  /** Peeling and eviction re-establish what holds between calls. */
  lemma SettleTracked(v: View, d: Decoder, ssrc: nat)
    requires Peelable(v, d, ssrc)
    ensures Tracked(v, Settle(d), ssrc)
    ensures Gained(v, d, RecoverAll(d)) && Settle(d).out == RecoverAll(d).out
  {
    hide MatrixConfig.Window, MatrixConfig.GeometryOk, MatrixConfig.Valid, Genuine, View.Sent, View.Orig, RecoverAll, Rebuilt, PutOut, Absent,
         Ready, Decoder.InWindow, Decoder.Below, Decoder.Eligible, ClosedUnder;
    PeelableReady(v, d, ssrc);
    RecoverAllReady(v, d);
    var r := RecoverAll(d);
    var e := Evict(r);
    PeelKeepsSource(v, d, ssrc);
    if !d.haveSeq { EmptyStays(v, d, ssrc); }
    StillInFrom(r, r.fecs);
    forall k | k in e.media ensures MediaOk(v, e, k, ssrc) { SettledMedia(v, d, r, k, ssrc); }
    forall i | 0 <= i < |e.fecs| ensures GroupOk(v, e, e.fecs[i]) {
      assert e.fecs[i] in StillIn(r, r.fecs);
      var j :| 0 <= j < |r.fecs| && r.fecs[j] == e.fecs[i];
      SettledGroup(v, d, r, j, ssrc);
    }
    SettledClosed(v, d, r, ssrc);
  }

  lemma SettledMedia(v: View, d: Decoder, r: Decoder, k: u32, ssrc: nat)
    requires Peelable(v, d, ssrc) && Gained(v, d, r) && Ready(v, r) && OneSource(r, ssrc)
    requires k in r.media && !r.Below(k)
    ensures k in Evict(r).media && MediaOk(v, Evict(r), k, ssrc)
  {
    hide MatrixConfig.Window, MatrixConfig.GeometryOk, MatrixConfig.Valid, Genuine, View.Sent, View.Orig, Absent, StoredOk, GroupReady, StillIn,
         Decoder.InWindow, Decoder.Below, Decided, Decoder.Eligible;
    SameTests(d, r, k);
    SameTests(r, Evict(r), k);
    if k in d.media {
      assert HeldOk(v, d, k, ssrc);
    } else {
      assert PutOut(d, r, k);
      var j :| |d.out| <= j < |r.out| && r.out[j].seqno == k;
      assert Rebuilt(v, d, r, r.out[j]);
    }
  }

  lemma SettledGroup(v: View, d: Decoder, r: Decoder, j: nat, ssrc: nat)
    requires Peelable(v, d, ssrc) && Gained(v, d, r) && Ready(v, r) && r == RecoverAll(d)
    requires j < |r.fecs| && !r.Below(r.fecs[j].base)
    ensures GroupOk(v, Evict(r), r.fecs[j])
  {
    hide MatrixConfig.Window, MatrixConfig.GeometryOk, MatrixConfig.Valid, Genuine, View.Sent, View.Orig, Absent, StoredOk, HeldOk, StillIn,
         RecoverAll, Rebuilt, PutOut, Sound, Decided;
    assert GroupReady(v, d, d.fecs[j]);
    GenuineMark(v, d.fecs[j], r.fecs[j]);
    DoneResolved(v, d, r, j, ssrc);
    if r.fecs[j].done { EvictSpares(r, r.fecs[j]); }
  }

  lemma SettledClosed(v: View, d: Decoder, r: Decoder, ssrc: nat)
    requires Peelable(v, d, ssrc) && Gained(v, d, r) && Ready(v, r) && ClosedUnder(r.media.Keys, d)
    ensures ClosedUnder(Evict(r).media.Keys, Evict(r))
  {
    hide MatrixConfig.Window, MatrixConfig.GeometryOk, MatrixConfig.Valid, Genuine, View.Sent, View.Orig, Absent, HeldOk, StillIn,
         Rebuilt, PutOut, Sound, Decided, GroupReady, Decoder.Below, Resolved, Plus;
    var e := Evict(r);
    StillInFrom(r, r.fecs);
    ClosedSame(r.media.Keys, d, r);
    forall i | 0 <= i < |e.fecs| && e.Eligible(e.fecs[i]) ensures |Absent(e.fecs[i].Members(), e.media.Keys)| != 1 {
      assert e.fecs[i] in StillIn(r, r.fecs);
      var j :| 0 <= j < |r.fecs| && r.fecs[j] == e.fecs[i];
      assert StoredOk(v, r, r.fecs[j]);
      EvictSpares(r, r.fecs[j]);
    }
  }

  // ---- a media packet arrives ----

  lemma EligibleStays(v: View, d: Decoder, w: View, d1: Decoder, i: nat, ssrc: nat)
    requires Tracked(v, d, ssrc) && Anchored(v, d, w, d1) && d.haveSeq && i < |d.fecs|
    requires d.Eligible(d.fecs[i]) && !d1.Below(d.fecs[i].base)
    ensures d1.Eligible(d.fecs[i])
  {
    hide MatrixConfig.Window, MatrixConfig.Valid, Decoder.Below, ClosedUnder, Stream.Key, Distance, Genuine, MatrixConfig.GeometryOk, MediaOk,
         View.Pos, Plus, Mul;
    var f := d.fecs[i];
    assert GroupOk(v, d, f);
    WindowBound(d.cfg);
    GroupSpan(d.cfg, f.stride, f.count);
    var span := Mul(f.count - 1, f.stride);
    MulMono(0, f.count - 1, f.stride);
    EligibleAt(d, f, span);
    NotBelow(v, d, f.base);
    GroupAt(v, d, w, d1, i, ssrc);
    NotBelow(w, d1, f.base);
    var q := v.Pos(f.base);
    PosKey(v, f.base);
    KeyShift(v.st, q, span);
    KeyDistance(v.st, w.last, q + span);
  }

  /** Just after the newest packet is stored, everything is ready to be peeled. */
  lemma MediaPeelable(v: View, d: Decoder, p: int, ssrc: nat)
    requires Tracked(v, d, ssrc) && Arrives(v, p) && v.st.Key(p) !in d.media
    ensures var (w, d1, s) := (v.(last := Newest(v, d, p)), Advance(d.(out := []), v.st.Key(p)), v.st.Key(p));
      Peelable(w, d1.(media := d1.media[s := Kept(v.st.sent[p], ssrc)]), ssrc)
  {
    hide MatrixConfig.Window, MatrixConfig.Valid, Decoder.Below, ClosedUnder, Stream.Key, Distance, Genuine, MatrixConfig.GeometryOk,
         View.Pos, Decoder.InWindow, Decoder.Eligible, Absent;
    var s := v.st.Key(p);
    var w := v.(last := Newest(v, d, p));
    AdvanceAnchors(v, d.(out := []), p);
    var d1 := Advance(d.(out := []), s);
    var d2 := d1.(media := d1.media[s := Kept(v.st.sent[p], ssrc)]);
    TrackedOut(v, d, ssrc);
    forall k | k in d2.media ensures HeldOk(w, d2, k, ssrc) {
      if k == s { NewHeld(v, w, d2, p, ssrc); } else { OldHeld(v, d.(out := []), w, d1, d2, k, ssrc); }
    }
    forall i | 0 <= i < |d2.fecs| ensures GroupReady(w, d2, d2.fecs[i]) {
      OldGroup(v, d.(out := []), w, d1, d2, i, ssrc);
    }
  }

  lemma TrackedOut(v: View, d: Decoder, ssrc: nat)
    requires Tracked(v, d, ssrc)
    ensures Tracked(v, d.(out := []), ssrc)
  {
    hide MatrixConfig.Window, MatrixConfig.Valid, Genuine, MatrixConfig.GeometryOk, View.Pos, Absent;
    var e := d.(out := []);
    forall i | 0 <= i < |e.fecs| ensures GroupOk(v, e, e.fecs[i]) { assert GroupOk(v, d, d.fecs[i]); }
    forall k | k in e.media ensures MediaOk(v, e, k, ssrc) { assert MediaOk(v, d, k, ssrc); }
  }

  lemma NewHeld(v: View, w: View, d2: Decoder, p: int, ssrc: nat)
    requires w.st == v.st && v.st.Has(p) && p <= w.last < p + 0x8000_0000 && d2.cfg.Valid()
    requires d2.lastSeq == w.st.Key(w.last) && v.st.Key(p) in d2.media
    requires d2.media[v.st.Key(p)] == Kept(v.st.sent[p], ssrc)
    ensures HeldOk(w, d2, v.st.Key(p), ssrc)
  {
    hide MatrixConfig.Window, MatrixConfig.Valid, Decoder.Below, Stream.Key, View.Pos, Decoder.InWindow;
    WindowBound(d2.cfg);
    WindowTests(w, d2, p);
    PosOfKey(w, p);
  }

  lemma OldHeld(v: View, d: Decoder, w: View, d1: Decoder, d2: Decoder, k: u32, ssrc: nat)
    requires Tracked(v, d, ssrc) && Anchored(v, d, w, d1) && k in d.media
    requires d2.cfg == d1.cfg && d2.lastSeq == d1.lastSeq && k in d2.media && d2.media[k] == d.media[k]
    ensures HeldOk(w, d2, k, ssrc)
  {
    hide MatrixConfig.Window, MatrixConfig.Valid, Decoder.Below, ClosedUnder, Stream.Key, Distance, Genuine, MatrixConfig.GeometryOk,
         View.Pos, Decoder.InWindow, Decoder.Eligible, Absent, GroupOk;
    assert MediaOk(v, d, k, ssrc);
    HeldAt(v, d, w, d1, k, ssrc);
    SameTests(d1, d2, k);
  }

  lemma SameTests(d1: Decoder, d2: Decoder, k: u32)
    requires d2.cfg == d1.cfg && d2.lastSeq == d1.lastSeq
    ensures d2.InWindow(k) == d1.InWindow(k) && d2.Below(k) == d1.Below(k)
  {
  }

  lemma OldGroup(v: View, d: Decoder, w: View, d1: Decoder, d2: Decoder, i: nat, ssrc: nat)
    requires Tracked(v, d, ssrc) && Anchored(v, d, w, d1) && i < |d.fecs|
    requires d2.cfg == d1.cfg && d2.lastSeq == d1.lastSeq && d2.haveSeq && d.media.Keys <= d2.media.Keys
    ensures GroupReady(w, d2, d.fecs[i])
  {
    hide MatrixConfig.Window, MatrixConfig.Valid, ClosedUnder, Stream.Key, Distance, Genuine, MatrixConfig.GeometryOk,
         View.Pos, Decoder.InWindow, Absent, MediaOk;
    var f := d.fecs[i];
    assert GroupOk(v, d, f);
    if !d2.Below(f.base) {
      GroupAt(v, d, w, d1, i, ssrc);
      if f.done {
        if !d.haveSeq { ResolvedNeedsMedia(d, f); }
        EligibleStays(v, d, w, d1, i, ssrc);
        AbsentShrinks(f.Members(), d.media.Keys, d2.media.Keys);
      }
    }
  }

  /** A packet already held is at its own position, so it is not new. */
  lemma DuplicateIsOld(v: View, d: Decoder, p: int, ssrc: nat)
    requires Tracked(v, d, ssrc) && Arrives(v, p) && v.st.Key(p) in d.media
    ensures d.haveSeq && p <= v.last && PushMedia(d, v.st.Key(p), v.st.sent[p], ssrc) == d.(out := [])
  {
    hide MatrixConfig.Window, MatrixConfig.Valid, Decoder.Below, ClosedUnder, Stream.Key, Distance, Genuine, MatrixConfig.GeometryOk,
         View.Pos, Decoder.Eligible, Absent, GroupOk, Settle;
    var s := v.st.Key(p);
    assert MediaOk(v, d, s, ssrc);
    WindowBound(d.cfg);
    PosOfKey(v, p);
    KeyFwd(v.st, p, v.last);
    KeyDistance(v.st, v.last, p);
  }

  /** After any media packet of the stream the decoder holds what it should. */
  lemma MediaTracked(v: View, d: Decoder, p: int, ssrc: nat)
    requires Tracked(v, d, ssrc) && Arrives(v, p)
    ensures Tracked(v.(last := Newest(v, d, p)), PushMedia(d, v.st.Key(p), v.st.sent[p], ssrc), ssrc)
  {
    hide Tracked, Peelable, Settle, Stream.Key, Gained, RecoverAll;
    if v.st.Key(p) in d.media {
      DuplicateIsOld(v, d, p, ssrc);
      TrackedOut(v, d, ssrc);
    } else {
      var d1 := Advance(d.(out := []), v.st.Key(p));
      MediaPeelable(v, d, p, ssrc);
      SettleTracked(v.(last := Newest(v, d, p)), d1.(media := d1.media[v.st.Key(p) := Kept(v.st.sent[p], ssrc)]), ssrc);
    }
  }

  // ---- an FEC packet arrives ----

  /** The FEC packet for the group at b, as the encoder emits it. */
  function FecOf(st: Stream, b: int, stride: nat, count: nat, size: nat, variant: Variant): FecPacket
    requires st.HasGroup(b, stride, count)
  {
    var sum := GroupSum(st, b, stride, count, size);
    FecPacket(st.Key(b) % Span(variant), stride, count, sum[0], sum[1], sum[2], sum[3..])
  }

  lemma {:induction false} SumPt(st: Stream, b: int, stride: nat, n: nat, size: nat)
    requires st.HasGroup(b, stride, n)
    ensures GroupSum(st, b, stride, n, size)[1] < 128
    decreases n
  {
    hide Xor;
    if n > 0 {
      SumPt(st, b, stride, n - 1, size);
      assert Pow2(7) == 128;
      XorBelow(GroupSum(st, b, stride, n - 1, size)[1], st.sent[b + Mul(n - 1, stride)].pt % 128, 7);
    }
  }

  lemma PadWhole(payload: seq<nat>)
    ensures Pad(payload, |payload|) == payload
  {
  }

  /** Widening picks a base congruent to the truncated one, and no such base is
      nearer the newest packet. */
  lemma WidenNearest(last: u32, variant: Variant, base: nat)
    ensures var (c, span) := (Widen(last, variant, base), Span(variant));
      && c % span == base % span
      && 2 * Abs(Distance(last, c)) <= span
  {
    hide Plus, Distance;
    var span := Span(variant);
    var x := base % span - last % span;
    var cand := Plus(last, x);
    DistancePlus(last, x);
    PlusPlus(last, x, span);
    DistancePlus(last, x + span);
    PlusPlus(last, x, 0 - span);
    DistancePlus(last, x - span);
    PlusMod(last, x, variant, base, 0);
    PlusMod(last, x + span, variant, base, 1);
    PlusMod(last, x - span, variant, base, -1);
  }

  /** A truncated sequence number is the truncation of the sum. */
  lemma PlusTruncates(last: u32, n: int, variant: Variant)
    ensures Plus(last, n) % Span(variant) == (last + n) % Span(variant)
  {
    var q := (last + n) / 0x1_0000_0000;
    if variant.St20225? {
      ModAddMultiple(last + n, 0 - 0x1_0000 * q, 0x1_0000);
    } else {
      ModAddMultiple(last + n, 0 - 0x100 * q, 0x100_0000);
    }
  }

  lemma PlusMod(last: u32, n: int, variant: Variant, base: nat, turns: int)
    requires n == base % Span(variant) - last % Span(variant) + turns * Span(variant)
    ensures Plus(last, n) % Span(variant) == base % Span(variant)
  {
    hide Plus;
    PlusTruncates(last, n, variant);
    var span := Span(variant);
    ModAddMultiple(base % span, last / span + turns, span);
    MulDistributes(last / span, turns, span);
  }

  /** A base within half the truncation span of the newest packet is recovered. */
  lemma WidenInverts(last: u32, variant: Variant, n: int)
    requires 2 * Abs(n) < Span(variant)
    ensures Widen(last, variant, Plus(last, n) % Span(variant)) == Plus(last, n)
  {
    hide Plus, Distance, Widen;
    var span := Span(variant);
    var c := Widen(last, variant, Plus(last, n) % span);
    WidenNearest(last, variant, Plus(last, n) % span);
    var m := Distance(last, c);
    PlusDistance(last, c);
    assert Plus(last, m) % span == Plus(last, n) % span;
    SameResidue(last, m, n, variant);
  }

  lemma SameResidue(last: u32, m: int, n: int, variant: Variant)
    requires Plus(last, m) % Span(variant) == Plus(last, n) % Span(variant)
    requires 2 * Abs(m) <= Span(variant) && 2 * Abs(n) < Span(variant)
    ensures m == n
  {
    hide Plus;
    PlusTruncates(last, m, variant);
    PlusTruncates(last, n, variant);
    SameClass(last + m, last + n, Span(variant));
  }

  /** The group at b may have its FEC packet arrive. */
  predicate FecArrives(v: View, cfg: MatrixConfig, b: int, stride: nat, count: nat) {
    && cfg.GeometryOk(stride, count) && v.st.HasGroup(b, stride, count)
    && 2 * Abs(b - v.last) < Span(cfg.variant)
  }

  lemma StoredGenuine(v: View, d: Decoder, b: int, stride: nat, count: nat, ssrc: nat)
    requires Tracked(v, d, ssrc) && FecArrives(v, d.cfg, b, stride, count)
    ensures var p := FecOf(v.st, b, stride, count, v.size, d.cfg.variant);
      var base := Widen(d.lastSeq, d.cfg.variant, p.snBase);
      && base == v.st.Key(b)
      && GroupReady(v, d, Stored(base, stride, count, p.lengthRec, p.ptRec % 128, p.tsRec, p.payload, false))
  {
    hide MatrixConfig.Window, MatrixConfig.Valid, Decoder.Below, ClosedUnder, Distance, MatrixConfig.GeometryOk, Xor, Pack, Widen, GroupSum, MediaOk, GroupOk,
         Stream.Key, Plus, Absent, XorVec;
    KeyShift(v.st, v.last, b - v.last);
    WidenInverts(d.lastSeq, d.cfg.variant, b - v.last);
    PosOfKey(v, b);
    KeyDistance(v.st, v.last, b);
    var sum := GroupSum(v.st, b, stride, count, v.size);
    SumPt(v.st, b, stride, count, v.size);
    PadWhole(sum[3..]);
    assert sum == [sum[0], sum[1], sum[2]] + sum[3..];
  }

  lemma {:induction false} NothingBelow(d: Decoder, fecs: seq<Stored>)
    requires forall i :: 0 <= i < |fecs| ==> !d.Below(fecs[i].base)
    ensures StillIn(d, fecs) == fecs
  {
    if fecs != [] { NothingBelow(d, fecs[..|fecs| - 1]); }
  }

  /** Between calls there is nothing to evict. */
  lemma EvictIdle(v: View, d: Decoder, ssrc: nat)
    requires Tracked(v, d, ssrc)
    ensures Evict(d) == d
  {
    hide MatrixConfig.Window, MatrixConfig.Valid, Decoder.Below, ClosedUnder, Genuine, MatrixConfig.GeometryOk,
         Decoder.InWindow, Absent, Decoder.Eligible;
    forall k | k in d.media ensures !d.Below(k) {
      assert MediaOk(v, d, k, ssrc);
      InNotBelow(d, k);
    }
    forall i | 0 <= i < |d.fecs| ensures !d.Below(d.fecs[i].base) { assert GroupOk(v, d, d.fecs[i]); }
    NothingBelow(d, d.fecs);
    assert Evict(d).media == d.media;
  }

  lemma RoomPeelable(v: View, d: Decoder, f: Stored, ssrc: nat)
    requires Tracked(v, d, ssrc) && GroupReady(v, d, f) && !f.done
    ensures Peelable(v, MakeRoom(d).(fecs := MakeRoom(d).fecs + [f]), ssrc)
  {
    hide MatrixConfig.Window, MatrixConfig.Valid, Decoder.Below, ClosedUnder, Genuine, MatrixConfig.GeometryOk, Decoder.InWindow, Absent, Decoder.Eligible, Evict,
         View.Sent, View.Orig;
    EvictIdle(v, d, ssrc);
    var e := MakeRoom(d);
    var r := e.(fecs := e.fecs + [f]);
    assert e == d || (|d.fecs| == d.cfg.MaxFecs() && e == d.(fecs := d.fecs[1..]));
    forall i | 0 <= i < |r.fecs| ensures GroupReady(v, r, r.fecs[i]) {
      var g := r.fecs[i];
      if i < |e.fecs| {
        assert GroupOk(v, d, if e == d then d.fecs[i] else d.fecs[i + 1]);
        SameReady(v, d, r, g);
      } else {
        SameReady(v, d, r, f);
      }
    }
    forall k | k in r.media ensures HeldOk(v, r, k, ssrc) {
      assert MediaOk(v, d, k, ssrc);
      SameTests(d, r, k);
    }
  }

  lemma SameReady(v: View, d: Decoder, r: Decoder, f: Stored)
    requires GroupReady(v, d, f)
    requires r.cfg == d.cfg && r.lastSeq == d.lastSeq && r.haveSeq == d.haveSeq && r.media == d.media
    ensures GroupReady(v, r, f)
  {
    hide Genuine, MatrixConfig.GeometryOk, Absent;
  }

  /** After any genuine FEC packet the decoder holds what it should. */
  lemma FecTracked(v: View, d: Decoder, b: int, stride: nat, count: nat, ssrc: nat)
    requires Tracked(v, d, ssrc) && FecArrives(v, d.cfg, b, stride, count)
    ensures Tracked(v, PushFec(d, FecOf(v.st, b, stride, count, v.size, d.cfg.variant)), ssrc)
  {
    hide Tracked, Peelable, Settle, Gained, RecoverAll, FecOf, MakeRoom, GroupReady, Widen;
    TrackedOut(v, d, ssrc);
    var d0 := d.(out := []);
    var p := FecOf(v.st, b, stride, count, v.size, d.cfg.variant);
    FecOfGeometry(v, d.cfg, b, stride, count);
    var base := Widen(d.lastSeq, d.cfg.variant, p.snBase);
    if Settles(d, p) {
      StoredGenuine(v, d0, b, stride, count, ssrc);
      var f := Stored(base, stride, count, p.lengthRec, p.ptRec % 128, p.tsRec, p.payload, false);
      RoomPeelable(v, d0, f, ssrc);
      SettleTracked(v, Store(MakeRoom(d0), base, p), ssrc);
    }
  }

  lemma FecOfGeometry(v: View, cfg: MatrixConfig, b: int, stride: nat, count: nat)
    requires v.st.HasGroup(b, stride, count)
    ensures var p := FecOf(v.st, b, stride, count, v.size, cfg.variant); p.offset == stride && p.na == count
  {
  }

  /** The FEC packet is one more group, so it is stored and peeled. */
  predicate Settles(d: Decoder, p: FecPacket) {
    && p.offset > 0 && 1 < p.na <= 0x3ff && d.cfg.GeometryOk(p.offset, p.na)
    && !Knows(d.(out := []), Widen(d.lastSeq, d.cfg.variant, p.snBase), p.offset, p.na)
  }

  // ---- whole runs ----

  datatype Arrival = MediaAt(p: int) | FecAt(b: int, stride: nat, count: nat)

  /** The decoder, its anchor, and the positions ever received or rebuilt. */
  datatype Link = Link(v: View, d: Decoder, seen: set<int>)

  predicate Admissible(l: Link, a: Arrival) {
    match a
    case MediaAt(p) => Arrives(l.v, p)
    case FecAt(b, stride, count) => FecArrives(l.v, l.d.cfg, b, stride, count)
  }

  function Take(l: Link, ssrc: nat, a: Arrival): Link
    requires Admissible(l, a)
  {
    match a
    case MediaAt(p) =>
      var v := l.v.(last := Newest(l.v, l.d, p));
      var d := PushMedia(l.d, v.st.Key(p), v.st.sent[p], ssrc);
      Link(v, d, l.seen + {p} + Places(v, d.out))
    case FecAt(b, stride, count) =>
      var d := PushFec(l.d, FecOf(l.v.st, b, stride, count, l.v.size, l.d.cfg.variant));
      Link(l.v, d, l.seen + Places(l.v, d.out))
  }

  /** The positions of rebuilt packets. */
  function Places(v: View, out: seq<Recovered>): set<int> { set r | r in out :: v.Pos(r.seqno) }

  /** Whatever was seen and is recent is held. */
  predicate Linked(l: Link, ssrc: nat) {
    && Tracked(l.v, l.d, ssrc)
    && (!l.d.haveSeq ==> l.seen == {})
    && forall q :: q in l.seen ==> Remembered(l, q)
  }

  predicate Remembered(l: Link, q: int) {
    q <= l.v.last && (q >= l.v.last - l.d.cfg.Window() ==> l.v.st.Key(q) in l.d.media)
  }

  /** r is the packet sent at some recent position never seen before. */
  predicate Rescue(l: Link, v: View, a: Arrival, r: Recovered, ssrc: nat) {
    var p := v.Pos(r.seqno);
    && v.st.Has(p) && r == Recovered(v.st.Key(p), v.st.sent[p], ssrc)
    && v.last - l.d.cfg.Window() <= p <= v.last
    && p !in l.seen && (a.MediaAt? ==> p != a.p)
  }

  predicate StepSafe(l: Link, ssrc: nat, a: Arrival)
    requires Admissible(l, a)
  {
    var n := Take(l, ssrc, a);
    && Linked(n, ssrc)
    && (forall j :: 0 <= j < |n.d.out| ==> Rescue(l, n.v, a, n.d.out[j], ssrc))
    && (forall i, j :: 0 <= i < j < |n.d.out| ==> n.d.out[i].seqno != n.d.out[j].seqno)
  }

  predicate RunAdmissible(l: Link, ssrc: nat, run: seq<Arrival>)
    decreases |run|
  {
    run == [] || (Admissible(l, run[0]) && RunAdmissible(Take(l, ssrc, run[0]), ssrc, run[1..]))
  }

  /** Every step of the run rebuilds only packets that were sent and never held. */
  predicate RunSafe(l: Link, ssrc: nat, run: seq<Arrival>)
    requires RunAdmissible(l, ssrc, run)
    decreases |run|
  {
    run == [] || (StepSafe(l, ssrc, run[0]) && RunSafe(Take(l, ssrc, run[0]), ssrc, run[1..]))
  }

  lemma Survives(v: View, r: Decoder, q: int)
    requires r.cfg.Valid() && r.lastSeq == v.st.Key(v.last) && v.st.Key(q) in r.media
    requires v.last - r.cfg.Window() <= q <= v.last
    ensures v.st.Key(q) in Evict(r).media
  {
    hide MatrixConfig.Window, MatrixConfig.Valid, Decoder.Below, Decoder.InWindow, Stream.Key, StillIn;
    WindowBound(r.cfg);
    WindowTests(v, r, q);
    InNotBelow(r, v.st.Key(q));
  }

  lemma RecentPos(v: View, d: Decoder, k: u32)
    requires d.cfg.Valid() && d.lastSeq == v.st.Key(v.last) && d.InWindow(k)
    ensures v.last - d.cfg.Window() <= v.Pos(k) <= v.last && v.st.Key(v.Pos(k)) == k
  {
    hide MatrixConfig.Window, MatrixConfig.Valid, Decoder.Below, Stream.Key, View.Pos;
    WindowBound(d.cfg);
    InNotBelow(d, k);
    InWindowNotAhead(d, k);
    NotBelow(v, d, k);
    PosKey(v, k);
  }

  /** What peeling puts out is sent, recent, not held, and not repeated. */
  lemma PeelRescues(v: View, d: Decoder, ssrc: nat, j: nat)
    requires Peelable(v, d, ssrc) && d.out == [] && j < |Settle(d).out|
    ensures var (r, p) := (Settle(d).out[j], v.Pos(Settle(d).out[j].seqno));
      && v.st.Has(p) && r == Recovered(v.st.Key(p), v.st.sent[p], ssrc)
      && v.last - d.cfg.Window() <= p <= v.last && v.st.Key(p) !in d.media
      && v.st.Key(p) in Settle(d).media
    ensures forall i :: 0 <= i < j ==> Settle(d).out[i].seqno != Settle(d).out[j].seqno
  {
    hide MatrixConfig.Window, MatrixConfig.Valid, Decoder.Below, Stream.Key, Peelable, RecoverAll, Decoder.InWindow, StillIn, SameGroups, Decided,
         View.Pos, Decoder.Eligible;
    PeelableReady(v, d, ssrc);
    RecoverAllReady(v, d);
    PeelKeepsSource(v, d, ssrc);
    SettleTracked(v, d, ssrc);
    PeelableShape(v, d, ssrc);
    var e := RecoverAll(d);
    var r := e.out[j];
    assert Rebuilt(v, d, e, r);
    GainedShape(v, d, e);
    SameAnchor(d, e);
    RecentPos(v, d, r.seqno);
    Survives(v, e, v.Pos(r.seqno));
  }

  lemma PeelableShape(v: View, d: Decoder, ssrc: nat)
    requires Peelable(v, d, ssrc)
    ensures d.cfg.Valid() && d.lastSeq == v.st.Key(v.last)
  {
  }

  lemma SameAnchor(d: Decoder, r: Decoder)
    requires SameGroups(d, r)
    ensures r.cfg == d.cfg && r.lastSeq == d.lastSeq
  {
  }

  /** A recent packet held before peeling is held after it. */
  lemma PeelRemembers(v: View, d: Decoder, ssrc: nat, q: int)
    requires Peelable(v, d, ssrc) && v.st.Key(q) in d.media && v.last - d.cfg.Window() <= q <= v.last
    ensures v.st.Key(q) in Settle(d).media
  {
    hide MatrixConfig.Window, MatrixConfig.Valid, Decoder.Below, Stream.Key, Peelable, RecoverAll,
         Decoder.InWindow, StillIn, Rebuilt, PutOut, SameGroups;
    PeelableReady(v, d, ssrc);
    RecoverAllReady(v, d);
    PeelableShape(v, d, ssrc);
    GainedShape(v, d, RecoverAll(d));
    SameAnchor(d, RecoverAll(d));
    Survives(v, RecoverAll(d), q);
  }

  lemma SettleAnchor(d: Decoder)
    ensures Settle(d).cfg == d.cfg
  {
    PeelCfg(d);
  }

  lemma {:induction false} PassCfg(d: Decoder, i: nat)
    requires i <= |d.fecs|
    ensures Pass(d, i).cfg == d.cfg
    decreases |d.fecs| - i
  {
    hide Attempt;
    PassUnfold(d, i);
    if i < |d.fecs| { PassCfg(TryRecover(d, i), i + 1); }
  }

  lemma {:induction false} PeelCfg(d: Decoder)
    ensures RecoverAll(d).cfg == d.cfg
    decreases Undone(d.fecs)
  {
    hide Pass;
    PassCfg(d, 0);
    if |Pass(d, 0).out| > |d.out| { PeelCfg(Pass(d, 0)); }
  }

  /** Peeling from a state that extends l: the step is safe. */
  lemma SettleSafe(l: Link, v: View, d: Decoder, a: Arrival, ssrc: nat, extra: set<int>)
    requires Linked(l, ssrc) && Peelable(v, d, ssrc) && d.out == [] && v.st == l.v.st && d.cfg == l.d.cfg
    requires (l.d.haveSeq ==> v.last >= l.v.last && d.haveSeq) && l.d.media.Keys <= d.media.Keys
    requires forall q :: q in extra ==> q <= v.last && v.st.Key(q) in d.media
    requires extra == (if a.MediaAt? then {a.p} else {}) && (extra != {} ==> d.haveSeq)
    ensures var n := Link(v, Settle(d), l.seen + extra + Places(v, Settle(d).out));
      && Linked(n, ssrc)
      && (forall j :: 0 <= j < |n.d.out| ==> Rescue(l, n.v, a, n.d.out[j], ssrc))
      && (forall i, j :: 0 <= i < j < |n.d.out| ==> n.d.out[i].seqno != n.d.out[j].seqno)
  {
    hide MatrixConfig.Window, MatrixConfig.Valid, Stream.Key, Peelable, Settle, View.Pos, Tracked;
    var n := Link(v, Settle(d), l.seen + extra + Places(v, Settle(d).out));
    SettleTracked(v, d, ssrc);
    SettleAnchor(d);
    forall j | 0 <= j < |n.d.out|
      ensures Rescue(l, n.v, a, n.d.out[j], ssrc) && Remembered(n, v.Pos(n.d.out[j].seqno))
      ensures forall i :: 0 <= i < j ==> n.d.out[i].seqno != n.d.out[j].seqno
    {
      PeelRescues(v, d, ssrc, j);
      var p := v.Pos(n.d.out[j].seqno);
      assert p in l.seen ==> Remembered(l, p);
    }
    forall q | q in n.seen ensures Remembered(n, q) {
      if q in l.seen { assert Remembered(l, q); }
      if (q in l.seen || q in extra) && q >= v.last - d.cfg.Window() { PeelRemembers(v, d, ssrc, q); }
    }
    if !n.d.haveSeq { SettleUnheard(v, d, ssrc, l, a, extra); }
  }

  /** Before the first media packet nothing can have been seen or rebuilt. */
  lemma SettleUnheard(v: View, d: Decoder, ssrc: nat, l: Link, a: Arrival, extra: set<int>)
    requires Linked(l, ssrc) && Peelable(v, d, ssrc) && d.out == [] && !Settle(d).haveSeq
    requires (l.d.haveSeq ==> d.haveSeq) && (extra != {} ==> d.haveSeq)
    ensures l.seen + extra + Places(v, Settle(d).out) == {}
  {
    hide MatrixConfig.Window, MatrixConfig.Valid, Stream.Key, RecoverAll, View.Pos, Tracked, Ready, Rebuilt;
    PeelableReady(v, d, ssrc);
    RecoverAllReady(v, d);
    EmptyStays(v, d, ssrc);
    var e := RecoverAll(d);
    if e.out != [] { assert Rebuilt(v, d, e, e.out[0]); NotRebuilt(v, d, e); }
  }

  lemma NotRebuilt(v: View, d: Decoder, e: Decoder)
    requires e.media == map[] && e.out != []
    ensures !Rebuilt(v, d, e, e.out[0])
  {
  }

  lemma MediaSafe(l: Link, ssrc: nat, p: int)
    requires Linked(l, ssrc) && Arrives(l.v, p)
    ensures StepSafe(l, ssrc, MediaAt(p))
  {
    hide MatrixConfig.Window, MatrixConfig.Valid, Stream.Key, Peelable, Settle, View.Pos, Tracked, Rescue;
    var (d, s, v) := (l.d, l.v.st.Key(p), l.v.(last := Newest(l.v, l.d, p)));
    AnchorOf(l.v, d, ssrc);
    if s in d.media {
      DuplicateIsOld(l.v, d, p, ssrc);
      TrackedOut(l.v, d, ssrc);
      var n := Take(l, ssrc, MediaAt(p));
      forall q | q in n.seen ensures Remembered(n, q) { if q in l.seen { assert Remembered(l, q); } }
    } else {
      MediaPeelable(l.v, d, p, ssrc);
      var d1 := Advance(d.(out := []), s);
      SettleSafe(l, v, d1.(media := d1.media[s := Kept(v.st.sent[p], ssrc)]), MediaAt(p), ssrc, {p});
    }
  }

  lemma AnchorOf(v: View, d: Decoder, ssrc: nat)
    requires Tracked(v, d, ssrc)
    ensures d.cfg.Valid() && d.size == v.size && d.lastSeq == v.st.Key(v.last)
  {
  }

  lemma FecSafe(l: Link, ssrc: nat, b: int, stride: nat, count: nat)
    requires Linked(l, ssrc) && FecArrives(l.v, l.d.cfg, b, stride, count)
    ensures StepSafe(l, ssrc, FecAt(b, stride, count))
  {
    hide MatrixConfig.Window, MatrixConfig.Valid, Stream.Key, Peelable, Settle, View.Pos, Tracked, Rescue,
         MakeRoom, FecOf, Widen, GroupReady;
    var (d0, v) := (l.d.(out := []), l.v);
    TrackedOut(v, l.d, ssrc);
    AnchorOf(v, d0, ssrc);
    var p := FecOf(v.st, b, stride, count, v.size, d0.cfg.variant);
    FecOfGeometry(v, d0.cfg, b, stride, count);
    var base := Widen(d0.lastSeq, d0.cfg.variant, p.snBase);
    if Settles(l.d, p) {
      StoredGenuine(v, d0, b, stride, count, ssrc);
      var f := Stored(base, stride, count, p.lengthRec, p.ptRec % 128, p.tsRec, p.payload, false);
      RoomPeelable(v, d0, f, ssrc);
      RoomShape(v, d0, ssrc);
      SettleSafe(l, v, Store(MakeRoom(d0), base, p), FecAt(b, stride, count), ssrc, {});
    } else {
      var n := Take(l, ssrc, FecAt(b, stride, count));
      assert n.d == d0;
      forall q | q in n.seen ensures Remembered(n, q) { assert Remembered(l, q); }
    }
  }

  lemma RoomShape(v: View, d: Decoder, ssrc: nat)
    requires Tracked(v, d, ssrc)
    ensures var e := MakeRoom(d); e == d.(fecs := e.fecs)
  {
    hide Tracked, Evict;
    EvictIdle(v, d, ssrc);
  }

  /** Over every run of genuine arrivals, in any order, repeated or lost: each packet
      rebuilt is one that was sent, at a position never received or rebuilt before;
      and after every arrival the window, the group bound and the peeling hold. */
  lemma {:induction false} RunIsSafe(l: Link, ssrc: nat, run: seq<Arrival>)
    requires Linked(l, ssrc) && RunAdmissible(l, ssrc, run)
    ensures RunSafe(l, ssrc, run)
    decreases |run|
  {
    hide Linked, Take, Rescue;
    if run != [] {
      match run[0] {
        case MediaAt(p) => MediaSafe(l, ssrc, p);
        case FecAt(b, stride, count) => FecSafe(l, ssrc, b, stride, count);
      }
      RunIsSafe(Take(l, ssrc, run[0]), ssrc, run[1..]);
    }
  }

  /** A new decoder meets what the run theorem asks, wherever its anchor starts. */
  lemma NewLinked(st: Stream, cfg: MatrixConfig, size: nat, last: int, ssrc: nat)
    requires cfg.Valid() && View(st, last, size).Valid()
    ensures Linked(Link(View(st, last, size), NewDecoder(cfg, size, st.Key(last)), {}), ssrc)
  {
  }
}
