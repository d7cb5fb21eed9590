/** What the decoder remembers and why it misses nothing: the stored groups are exactly
    a bounded queue of the groups heard, the window holds exactly the positions seen,
    and so no group it remembers is ever left with a single missing member. An
    encoder's groups never fill the queue, so on its stream none is displaced. */
module FecComplete {
  import opened Arith
  import opened Serial
  import opened FecCode
  import opened FecDecoder
  import opened FecPeeling
  import opened FecRun
  import FecEncoder

  /** `count` positions `stride` apart, from b. */
  datatype Group = Group(b: int, stride: nat, count: nat) {
    function At(i: int): int { b + Mul(i, stride) }

    function End(): int { At(count - 1) }

    function Slots(): set<int> { set i | 0 <= i < count :: At(i) }
  }

  // ---- the queue of groups heard ----

  /** A group at b is in the window that ends at last, or ahead of it. */
  predicate Near(last: int, w: nat, b: int) { last - w <= b <= last - w + 0x8000_0000 }

  function Recent(mem: seq<Group>, last: int, w: nat): seq<Group> {
    if mem == [] then []
    else Recent(mem[..|mem| - 1], last, w) + (if Near(last, w, mem[|mem| - 1].b) then [mem[|mem| - 1]] else [])
  }

  /** The queue with room for one more: without its oldest group if it is full. */
  function Spared(mem: seq<Group>, max: nat): seq<Group>
    requires max > 0
  {
    if |mem| < max then mem else mem[1..]
  }

  /** A group not yet in the queue joins it, and displaces the oldest if it is full. */
  function Remember(mem: seq<Group>, g: Group, max: nat): seq<Group>
    requires max > 0
  {
    if g in mem then mem else Spared(mem, max) + [g]
  }

  /** The queue after an arrival. */
  function Memory(l: Link, mem: seq<Group>, a: Arrival): seq<Group> {
    match a
    case MediaAt(p) => Recent(mem, Newest(l.v, l.d, p), l.d.cfg.Window())
    case FecAt(b, stride, count) =>
      Recent(Remember(mem, Group(b, stride, count), l.d.cfg.MaxFecs()), l.v.last, l.d.cfg.Window())
  }

  predicate Is(st: Stream, f: Stored, g: Group) {
    f.base == st.Key(g.b) && f.stride == g.stride && f.count == g.count
  }

  /** The stored groups are those of the queue, in its order. */
  predicate Mirrors(l: Link, mem: seq<Group>) {
    && |l.d.fecs| == |mem|
    && forall i :: 0 <= i < |mem| ==> Is(l.v.st, l.d.fecs[i], mem[i]) && Near(l.v.last, l.d.cfg.Window(), mem[i].b)
  }

  /** Positions whose sequence numbers the window tests can tell apart. */
  predicate Reaches(last: int, w: nat, b: int) { -0x8000_0000 < b - last + w && b - last < 0xF000_0000 }

  lemma {:induction false} StillInMirrors(v: View, d: Decoder, fecs: seq<Stored>, mem: seq<Group>)
    requires d.lastSeq == v.st.Key(v.last) && d.cfg.Valid() && |fecs| == |mem|
    requires forall i :: 0 <= i < |mem| ==> Is(v.st, fecs[i], mem[i]) && Reaches(v.last, d.cfg.Window(), mem[i].b)
    ensures var (s, r) := (StillIn(d, fecs), Recent(mem, v.last, d.cfg.Window()));
      |s| == |r| && forall i :: 0 <= i < |r| ==> Is(v.st, s[i], r[i]) && Near(v.last, d.cfg.Window(), r[i].b)
  {
    hide MatrixConfig.Window, MatrixConfig.Valid, Stream.Key, Decoder.Below;
    if mem != [] {
      var n := |mem| - 1;
      StillInMirrors(v, d, fecs[..n], mem[..n]);
      WindowTests(v, d, mem[n].b);
    }
  }

  lemma {:induction false} RecentIdle(mem: seq<Group>, last: int, w: nat)
    requires forall i :: 0 <= i < |mem| ==> Near(last, w, mem[i].b)
    ensures Recent(mem, last, w) == mem
  {
    if mem != [] { RecentIdle(mem[..|mem| - 1], last, w); }
  }

  lemma SettleMirrors(v: View, d: Decoder, mem: seq<Group>, ssrc: nat, seen: set<int>)
    requires Peelable(v, d, ssrc) && |d.fecs| == |mem|
    requires forall i :: 0 <= i < |mem| ==> Is(v.st, d.fecs[i], mem[i]) && Reaches(v.last, d.cfg.Window(), mem[i].b)
    ensures Mirrors(Link(v, Settle(d), seen), Recent(mem, v.last, d.cfg.Window()))
  {
    hide MatrixConfig.Window, MatrixConfig.Valid, Stream.Key, Peelable, RecoverAll, StillIn, Recent, Ready, ClosedUnder,
         Rebuilt, PutOut, Decided;
    PeelableReady(v, d, ssrc);
    PeelableShape(v, d, ssrc);
    RecoverAllReady(v, d);
    var r := RecoverAll(d);
    forall i | 0 <= i < |mem| ensures Is(v.st, r.fecs[i], mem[i]) {
      assert r.fecs[i].(done := d.fecs[i].done) == d.fecs[i];
    }
    StillInMirrors(v, r, r.fecs, mem);
  }

  lemma MediaMirrors(l: Link, mem: seq<Group>, ssrc: nat, p: int)
    requires Linked(l, ssrc) && Mirrors(l, mem) && Arrives(l.v, p)
    ensures Mirrors(Take(l, ssrc, MediaAt(p)), Memory(l, mem, MediaAt(p)))
  {
    hide MatrixConfig.Window, MatrixConfig.Valid, Stream.Key, Peelable, Settle, View.Pos, Tracked, Recent;
    var (d, s, v) := (l.d, l.v.st.Key(p), l.v.(last := Newest(l.v, l.d, p)));
    AnchorOf(l.v, d, ssrc);
    if s in d.media {
      DuplicateIsOld(l.v, d, p, ssrc);
      RecentIdle(mem, l.v.last, d.cfg.Window());
    } else {
      MediaPeelable(l.v, d, p, ssrc);
      var d1 := Advance(d.(out := []), s);
      forall i | 0 <= i < |mem| ensures Reaches(v.last, d.cfg.Window(), mem[i].b) { ReachesOn(l, mem, ssrc, p, i); }
      var d2 := d1.(media := d1.media[s := Kept(v.st.sent[p], ssrc)]);
      SettleMirrors(v, d2, mem, ssrc, l.seen + {p} + Places(v, Settle(d2).out));
    }
  }

  lemma ReachesOn(l: Link, mem: seq<Group>, ssrc: nat, p: int, i: nat)
    requires Linked(l, ssrc) && Mirrors(l, mem) && Arrives(l.v, p) && i < |mem|
    ensures Reaches(Newest(l.v, l.d, p), l.d.cfg.Window(), mem[i].b)
  {
    hide MatrixConfig.Window, MatrixConfig.Valid, Stream.Key, View.Pos, Distance, ClosedUnder, Genuine, MatrixConfig.GeometryOk;
    WindowBound(l.d.cfg);
    assert GroupOk(l.v, l.d, l.d.fecs[i]);
    KeyDistance(l.v.st, l.v.last, mem[i].b);
  }

  /** A group is stored already exactly when it is in the queue. */
  lemma KnowsIs(l: Link, mem: seq<Group>, g: Group)
    requires Mirrors(l, mem) && l.d.cfg.Valid() && -0x8000_0000 < g.b - l.v.last < 0x8000_0000
    ensures Knows(l.d.(out := []), l.v.st.Key(g.b), g.stride, g.count) <==> g in mem
  {
    hide MatrixConfig.Window, MatrixConfig.Valid, Stream.Key;
    WindowBound(l.d.cfg);
    if i :| 0 <= i < |mem| && l.d.fecs[i].base == l.v.st.Key(g.b) && l.d.fecs[i].stride == g.stride && l.d.fecs[i].count == g.count {
      assert Is(l.v.st, l.d.fecs[i], mem[i]);
      SameKey(l.v.st, g.b, mem[i].b);
      assert mem[i] == g;
    }
    if g in mem {
      var i :| 0 <= i < |mem| && mem[i] == g;
      assert Is(l.v.st, l.d.fecs[i], mem[i]);
    }
  }

  lemma SameKey(st: Stream, p: int, q: int)
    requires st.Key(p) == st.Key(q) && -0x1_0000_0000 < p - q < 0x1_0000_0000
    ensures p == q
  {
    hide Stream.Key;
    KeyFwd(st, p, q);
    KeyFwd(st, p, p);
    OneTurn(q - p);
  }

  /** An FEC packet of a group in the queue does nothing; any other is stored and peeled. */
  lemma PushFecIs(l: Link, mem: seq<Group>, ssrc: nat, g: Group)
    requires Tracked(l.v, l.d, ssrc) && Mirrors(l, mem) && FecArrives(l.v, l.d.cfg, g.b, g.stride, g.count)
    ensures var (d0, p) := (l.d.(out := []), FecOf(l.v.st, g.b, g.stride, g.count, l.v.size, l.d.cfg.variant));
      PushFec(l.d, p) == if g in mem then d0 else Settle(Store(MakeRoom(d0), l.v.st.Key(g.b), p))
  {
    hide MatrixConfig.Window, MatrixConfig.Valid, Stream.Key, Settle, View.Pos, Tracked, Knows, Mirrors,
         MakeRoom, FecOf, Widen, GroupReady, MatrixConfig.GeometryOk, Stream.HasGroup, Store;
    AnchorOf(l.v, l.d, ssrc);
    GroupSpan(l.d.cfg, g.stride, g.count);
    FecOfGeometry(l.v, l.d.cfg, g.b, g.stride, g.count);
    StoredGenuine(l.v, l.d, g.b, g.stride, g.count, ssrc);
    KnowsIs(l, mem, g);
  }

  lemma StoreMirrors(l: Link, mem: seq<Group>, ssrc: nat, g: Group, seen: set<int>)
    requires Tracked(l.v, l.d, ssrc) && Mirrors(l, mem) && FecArrives(l.v, l.d.cfg, g.b, g.stride, g.count) && g !in mem
    ensures var p := FecOf(l.v.st, g.b, g.stride, g.count, l.v.size, l.d.cfg.variant);
      Mirrors(Link(l.v, Settle(Store(MakeRoom(l.d.(out := [])), l.v.st.Key(g.b), p)), seen),
              Recent(Remember(mem, g, l.d.cfg.MaxFecs()), l.v.last, l.d.cfg.Window()))
  {
    hide MatrixConfig.Window, MatrixConfig.Valid, Stream.Key, Peelable, Settle, View.Pos, Tracked, Recent, Mirrors,
         MakeRoom, FecOf, Widen, GroupReady, MatrixConfig.GeometryOk, Stream.HasGroup, Spared, Is, Near;
    var (d0, v) := (l.d.(out := []), l.v);
    TrackedOut(v, l.d, ssrc);
    AnchorOf(v, d0, ssrc);
    WindowBound(d0.cfg);
    var p := FecOf(v.st, g.b, g.stride, g.count, v.size, d0.cfg.variant);
    FecOfGeometry(v, d0.cfg, g.b, g.stride, g.count);
    StoredGenuine(v, d0, g.b, g.stride, g.count, ssrc);
    var f := Stored(v.st.Key(g.b), g.stride, g.count, p.lengthRec, p.ptRec % 128, p.tsRec, p.payload, false);
    RoomPeelable(v, d0, f, ssrc);
    RoomMirrors(l, mem, ssrc);
    assert Is(v.st, f, g) && Reaches(v.last, d0.cfg.Window(), g.b) by { StoredIs(v, d0.cfg, f, g); }
    var kept := Spared(mem, d0.cfg.MaxFecs());
    JoinMirrors(v, d0.cfg.Window(), MakeRoom(d0).fecs, kept, f, g);
    SettleMirrors(v, Store(MakeRoom(d0), v.st.Key(g.b), p), kept + [g], ssrc, seen);
  }

  lemma StoredIs(v: View, cfg: MatrixConfig, f: Stored, g: Group)
    requires cfg.Valid() && FecArrives(v, cfg, g.b, g.stride, g.count)
    requires f.base == v.st.Key(g.b) && f.stride == g.stride && f.count == g.count
    ensures Is(v.st, f, g) && Reaches(v.last, cfg.Window(), g.b)
  {
    hide MatrixConfig.Window, MatrixConfig.Valid;
    WindowBound(cfg);
  }

  lemma FecMirrors(l: Link, mem: seq<Group>, ssrc: nat, b: int, stride: nat, count: nat)
    requires Linked(l, ssrc) && Mirrors(l, mem) && FecArrives(l.v, l.d.cfg, b, stride, count)
    ensures Mirrors(Take(l, ssrc, FecAt(b, stride, count)), Memory(l, mem, FecAt(b, stride, count)))
  {
    hide MatrixConfig.Window, MatrixConfig.Valid, Stream.Key, Settle, View.Pos, Tracked, Recent, Linked, PushFec,
         MakeRoom, FecOf, FecArrives, Store;
    var g := Group(b, stride, count);
    LinkedTracked(l, ssrc);
    PushFecIs(l, mem, ssrc, g);
    if g in mem {
      RecentIdle(mem, l.v.last, l.d.cfg.Window());
    } else {
      StoreMirrors(l, mem, ssrc, g, Take(l, ssrc, FecAt(b, stride, count)).seen);
    }
  }

  lemma LinkedTracked(l: Link, ssrc: nat)
    requires Linked(l, ssrc)
    ensures Tracked(l.v, l.d, ssrc)
  {
  }

  lemma RoomMirrors(l: Link, mem: seq<Group>, ssrc: nat)
    requires Tracked(l.v, l.d, ssrc) && Mirrors(l, mem)
    ensures var (r, kept) := (MakeRoom(l.d.(out := [])), Spared(mem, l.d.cfg.MaxFecs()));
      && r == l.d.(out := [], fecs := r.fecs) && |r.fecs| == |kept|
      && forall i :: 0 <= i < |kept| ==> Is(l.v.st, r.fecs[i], kept[i]) && Near(l.v.last, l.d.cfg.Window(), kept[i].b)
  {
    hide MatrixConfig.Window, MatrixConfig.Valid, Stream.Key, Tracked, Evict;
    TrackedOut(l.v, l.d, ssrc);
    EvictIdle(l.v, l.d.(out := []), ssrc);
  }

  lemma JoinMirrors(v: View, w: nat, fecs: seq<Stored>, kept: seq<Group>, f: Stored, g: Group)
    requires w <= 19028 && |fecs| == |kept| && Is(v.st, f, g) && Reaches(v.last, w, g.b)
    requires forall i :: 0 <= i < |kept| ==> Is(v.st, fecs[i], kept[i]) && Near(v.last, w, kept[i].b)
    ensures forall i :: 0 <= i < |kept| + 1 ==> Is(v.st, (fecs + [f])[i], (kept + [g])[i]) && Reaches(v.last, w, (kept + [g])[i].b)
  {
    hide Stream.Key;
  }

  // ---- what is held was seen ----

  predicate Known(l: Link) { forall k :: k in l.d.media ==> l.v.Pos(k) in l.seen }

  lemma SettleKnown(v: View, d: Decoder, ssrc: nat, seen: set<int>)
    requires Peelable(v, d, ssrc) && d.out == []
    requires forall k :: k in d.media && d.InWindow(k) ==> v.Pos(k) in seen
    ensures Known(Link(v, Settle(d), seen + Places(v, Settle(d).out)))
  {
    hide MatrixConfig.Window, MatrixConfig.Valid, Stream.Key, Peelable, RecoverAll, StillIn, ClosedUnder, Rebuilt, Decided,
         View.Pos, Decoder.InWindow, Decoder.Below, GroupOk;
    SettleTracked(v, d, ssrc);
    var e := Settle(d);
    forall k | k in e.media ensures v.Pos(k) in seen + Places(v, e.out) {
      assert MediaOk(v, e, k, ssrc);
      SameAnchor(d, RecoverAll(d));
      SameTests(d, e, k);
      if k !in d.media {
        assert PutOut(d, RecoverAll(d), k);
        var j :| 0 <= j < |e.out| && e.out[j].seqno == k;
        assert e.out[j] in e.out;
      }
    }
  }

  lemma MediaKnown(l: Link, ssrc: nat, p: int)
    requires Linked(l, ssrc) && Known(l) && Arrives(l.v, p)
    ensures Known(Take(l, ssrc, MediaAt(p)))
  {
    hide MatrixConfig.Window, MatrixConfig.Valid, Stream.Key, Peelable, Settle, View.Pos, Tracked, Decoder.InWindow, Decoder.Below;
    var (d, s, v) := (l.d, l.v.st.Key(p), l.v.(last := Newest(l.v, l.d, p)));
    AnchorOf(l.v, d, ssrc);
    if s in d.media {
      DuplicateIsOld(l.v, d, p, ssrc);
    } else {
      MediaPeelable(l.v, d, p, ssrc);
      TrackedOut(l.v, d, ssrc);
      AdvanceAnchors(l.v, d.(out := []), p);
      var d1 := Advance(d.(out := []), s);
      var d2 := d1.(media := d1.media[s := Kept(v.st.sent[p], ssrc)]);
      forall k | k in d2.media && d2.InWindow(k) ensures v.Pos(k) in l.seen + {p} {
        if k == s {
          PosOfKey(v, p);
        } else {
          HeldAt(l.v, d.(out := []), v, d1, k, ssrc);
          SameTests(d1, d2, k);
        }
      }
      SettleKnown(v, d2, ssrc, l.seen + {p});
    }
  }

  lemma FecKnown(l: Link, ssrc: nat, b: int, stride: nat, count: nat)
    requires Linked(l, ssrc) && Known(l) && FecArrives(l.v, l.d.cfg, b, stride, count)
    ensures Known(Take(l, ssrc, FecAt(b, stride, count)))
  {
    hide MatrixConfig.Window, MatrixConfig.Valid, Stream.Key, Peelable, Settle, View.Pos, Tracked, Decoder.InWindow, Knows,
         MakeRoom, FecOf, Widen, GroupReady;
    var (d0, v) := (l.d.(out := []), l.v);
    TrackedOut(v, l.d, ssrc);
    var p := FecOf(v.st, b, stride, count, v.size, d0.cfg.variant);
    FecOfGeometry(v, d0.cfg, b, stride, count);
    var base := Widen(d0.lastSeq, d0.cfg.variant, p.snBase);
    if Settles(l.d, p) {
      StoredGenuine(v, d0, b, stride, count, ssrc);
      RoomPeelable(v, d0, Stored(base, stride, count, p.lengthRec, p.ptRec % 128, p.tsRec, p.payload, false), ssrc);
      RoomShape(v, d0, ssrc);
      SettleKnown(v, Store(MakeRoom(d0), base, p), ssrc, l.seen);
    }
  }

  // ---- nothing is missed ----

  /** What holds between arrivals. */
  predicate Complete(l: Link, mem: seq<Group>, ssrc: nat) { Linked(l, ssrc) && Mirrors(l, mem) && Known(l) }

  lemma StepComplete(l: Link, mem: seq<Group>, ssrc: nat, a: Arrival)
    requires Complete(l, mem, ssrc) && Admissible(l, a)
    ensures Complete(Take(l, ssrc, a), Memory(l, mem, a), ssrc) && StepSafe(l, ssrc, a)
  {
    hide Linked, Mirrors, Known, Take, Memory, Rescue;
    match a
    case MediaAt(p) =>
      MediaSafe(l, ssrc, p);
      MediaMirrors(l, mem, ssrc, p);
      MediaKnown(l, ssrc, p);
    case FecAt(b, stride, count) =>
      FecSafe(l, ssrc, b, stride, count);
      FecMirrors(l, mem, ssrc, b, stride, count);
      FecKnown(l, ssrc, b, stride, count);
  }

  lemma {:induction false} AbsentExactly(ms: seq<u32>, have: set<u32>, j: nat)
    requires j < |ms| && ms[j] !in have && forall i :: 0 <= i < |ms| && i != j ==> ms[i] in have
    ensures Absent(ms, have) == [ms[j]]
  {
    var n := |ms| - 1;
    if j < n { AbsentExactly(ms[..n], have, j); } else { AbsentNone(ms[..n], have); }
  }

  /** A recent position is held exactly when it was seen. */
  lemma HeldIsSeen(l: Link, ssrc: nat, q: int)
    requires Linked(l, ssrc) && Known(l) && l.v.last - l.d.cfg.Window() <= q <= l.v.last
    ensures l.v.st.Key(q) in l.d.media <==> q in l.seen
  {
    hide MatrixConfig.Window, MatrixConfig.Valid, Stream.Key, View.Pos, GroupOk, MediaOk, ClosedUnder;
    WindowBound(l.d.cfg);
    PosOfKey(l.v, q);
    if q in l.seen { assert Remembered(l, q); }
  }

  lemma MemberKey(st: Stream, f: Stored, g: Group, i: nat)
    requires Is(st, f, g) && i < f.count
    ensures f.Members()[i] == st.Key(g.At(i))
  {
    KeyShift(st, g.b, Mul(i, g.stride));
  }

  lemma EligibleIs(l: Link, mem: seq<Group>, ssrc: nat, i: nat)
    requires Linked(l, ssrc) && Mirrors(l, mem) && i < |mem| && mem[i].End() <= l.v.last
    ensures l.d.Eligible(l.d.fecs[i]) && l.d.cfg.GeometryOk(mem[i].stride, mem[i].count)
    ensures mem[i].count >= 2 && mem[i].stride >= 1
  {
    hide MatrixConfig.Window, MatrixConfig.Valid, Stream.Key, View.Pos, ClosedUnder, Genuine, MatrixConfig.GeometryOk, Mul,
         Decoder.Below, Plus, Distance;
    var (f, g) := (l.d.fecs[i], mem[i]);
    assert GroupOk(l.v, l.d, f);
    WindowBound(l.d.cfg);
    GroupSpan(l.d.cfg, g.stride, g.count);
    MulMono(0, g.count - 1, g.stride);
    KeyShift(l.v.st, g.b, Mul(g.count - 1, g.stride));
    KeyDistance(l.v.st, l.v.last, g.End());
  }

  /** No remembered group whose last packet is not ahead of the newest one is ever left
      with exactly one member neither received nor rebuilt. */
  lemma NeverOneMissing(l: Link, mem: seq<Group>, ssrc: nat, g: Group, q: int)
    requires Complete(l, mem, ssrc) && g in mem && g.End() <= l.v.last
    ensures g.Slots() - l.seen != {q}
  {
    hide MatrixConfig.Window, MatrixConfig.Valid, Stream.Key, Known, Linked, Decoder.Eligible, MatrixConfig.GeometryOk, Mul,
         Absent;
    var i :| 0 <= i < |mem| && mem[i] == g;
    var f := l.d.fecs[i];
    EligibleIs(l, mem, ssrc, i);
    ClosedHere(l, ssrc, i);
    if g.Slots() - l.seen == {q} {
      assert q in g.Slots() - l.seen;
      var j :| 0 <= j < g.count && g.At(j) == q;
      forall m | 0 <= m < g.count
        ensures f.Members()[m] in l.d.media.Keys <==> m != j
      {
        MemberHeld(l, mem, ssrc, i, m);
        SlotsDiffer(g, j, m);
        assert g.At(m) in g.Slots();
        assert g.At(m) in g.Slots() - l.seen <==> g.At(m) == q;
      }
      AbsentExactly(f.Members(), l.d.media.Keys, j);
    }
  }

  lemma MemberHeld(l: Link, mem: seq<Group>, ssrc: nat, i: nat, m: nat)
    requires Linked(l, ssrc) && Mirrors(l, mem) && Known(l) && i < |mem| && mem[i].End() <= l.v.last && m < mem[i].count
    ensures l.d.fecs[i].Members()[m] in l.d.media.Keys <==> mem[i].At(m) in l.seen
  {
    hide MatrixConfig.Window, MatrixConfig.Valid, Stream.Key, Known, Linked, Mul;
    var g := mem[i];
    MemberKey(l.v.st, l.d.fecs[i], g, m);
    MulMono(0, m, g.stride);
    MulMono(m, g.count - 1, g.stride);
    HeldIsSeen(l, ssrc, g.At(m));
  }

  lemma SlotsDiffer(g: Group, i: nat, j: nat)
    requires g.stride >= 1
    ensures g.At(i) == g.At(j) <==> i == j
  {
    hide Mul;
    if i < j { MulStep(i, g.stride); MulMono(i + 1, j, g.stride); }
    if j < i { MulStep(j, g.stride); MulMono(j + 1, i, g.stride); }
  }

  lemma ClosedHere(l: Link, ssrc: nat, i: nat)
    requires Linked(l, ssrc) && i < |l.d.fecs| && l.d.Eligible(l.d.fecs[i])
    ensures |Absent(l.d.fecs[i].Members(), l.d.media.Keys)| != 1
  {
  }

  /** An arrival that leaves a remembered group with one missing member puts that
      member out, as it was sent. */
  lemma LossRebuilt(l: Link, mem: seq<Group>, ssrc: nat, a: Arrival, g: Group, q: int)
    requires Complete(l, mem, ssrc) && Admissible(l, a) && g in Memory(l, mem, a)
    requires g.End() <= Take(l, ssrc, a).v.last
    requires g.Slots() - (l.seen + if a.MediaAt? then {a.p} else {}) == {q}
    ensures l.v.st.Has(q) && Recovered(l.v.st.Key(q), l.v.st.sent[q], ssrc) in Take(l, ssrc, a).d.out
  {
    hide Complete, Memory, Mul, MatrixConfig.Window, Stream.Key, PushMedia, PushFec, View.Pos;
    var n := Take(l, ssrc, a);
    StepComplete(l, mem, ssrc, a);
    NeverOneMissing(n, Memory(l, mem, a), ssrc, g, q);
    assert q !in n.seen ==> g.Slots() - n.seen == {q};
    var r :| r in n.d.out && n.v.Pos(r.seqno) == q;
    var j :| 0 <= j < |n.d.out| && n.d.out[j] == r;
    assert Rescue(l, n.v, a, n.d.out[j], ssrc);
  }

  /** An FEC packet that arrives for a group in the window is stored. */
  lemma FecStored(l: Link, mem: seq<Group>, ssrc: nat, g: Group)
    requires Complete(l, mem, ssrc) && FecArrives(l.v, l.d.cfg, g.b, g.stride, g.count)
    requires g.b >= l.v.last - l.d.cfg.Window()
    ensures var a := FecAt(g.b, g.stride, g.count);
      && g in Memory(l, mem, a)
      && exists f :: f in Take(l, ssrc, a).d.fecs && Is(l.v.st, f, g)
  {
    hide Complete, Take, MatrixConfig.Window, MatrixConfig.Valid, Stream.Key, Recent, FecArrives, Is;
    var a := FecAt(g.b, g.stride, g.count);
    StepComplete(l, mem, ssrc, a);
    CompleteShape(l, mem, ssrc);
    WindowBound(l.d.cfg);
    FecNear(l.v, l.d.cfg, g);
    var kept := Remember(mem, g, l.d.cfg.MaxFecs());
    RecentIs(kept, l.v.last, l.d.cfg.Window());
    var i :| 0 <= i < |Memory(l, mem, a)| && Memory(l, mem, a)[i] == g;
    TakeSame(l, ssrc, a);
    StoredAt(Take(l, ssrc, a), Memory(l, mem, a), ssrc, i);
  }

  lemma TakeSame(l: Link, ssrc: nat, a: Arrival)
    requires Admissible(l, a)
    ensures Take(l, ssrc, a).v == l.v.(last := Take(l, ssrc, a).v.last)
    ensures l.seen <= Take(l, ssrc, a).seen && (a.MediaAt? ==> a.p in Take(l, ssrc, a).seen)
    ensures Take(l, ssrc, a).v.last == if a.MediaAt? then Newest(l.v, l.d, a.p) else l.v.last
  {
  }

  lemma StoredAt(l: Link, mem: seq<Group>, ssrc: nat, i: nat)
    requires Complete(l, mem, ssrc) && i < |mem|
    ensures i < |l.d.fecs| && l.d.fecs[i] in l.d.fecs && Is(l.v.st, l.d.fecs[i], mem[i])
  {
  }

  lemma CompleteShape(l: Link, mem: seq<Group>, ssrc: nat)
    requires Complete(l, mem, ssrc)
    ensures l.d.cfg.Valid() && forall g :: g in mem ==> Near(l.v.last, l.d.cfg.Window(), g.b)
    ensures !l.d.haveSeq ==> l.seen == {}
  {
  }

  lemma FecNear(v: View, cfg: MatrixConfig, g: Group)
    requires FecArrives(v, cfg, g.b, g.stride, g.count)
    ensures -0x80_0000 <= g.b - v.last <= 0x80_0000
  {
  }

  lemma {:induction false} RecentIs(mem: seq<Group>, last: int, w: nat)
    ensures forall g :: g in Recent(mem, last, w) <==> g in mem && Near(last, w, g.b)
  {
    if mem != [] {
      RecentIs(mem[..|mem| - 1], last, w);
      assert mem == mem[..|mem| - 1] + [mem[|mem| - 1]];
    }
  }

  // ---- whole runs ----

  function EndOf(l: Link, ssrc: nat, run: seq<Arrival>): Link
    requires RunAdmissible(l, ssrc, run)
    decreases |run|
  {
    if run == [] then l else EndOf(Take(l, ssrc, run[0]), ssrc, run[1..])
  }

  function MemoryAfter(l: Link, mem: seq<Group>, ssrc: nat, run: seq<Arrival>): seq<Group>
    requires RunAdmissible(l, ssrc, run)
    decreases |run|
  {
    if run == [] then mem else MemoryAfter(Take(l, ssrc, run[0]), Memory(l, mem, run[0]), ssrc, run[1..])
  }

  /** Over every run the stored groups are exactly the queue, and the window holds
      exactly the recent positions seen. */
  lemma {:induction false} RunComplete(l: Link, mem: seq<Group>, ssrc: nat, run: seq<Arrival>)
    requires Complete(l, mem, ssrc) && RunAdmissible(l, ssrc, run)
    ensures Complete(EndOf(l, ssrc, run), MemoryAfter(l, mem, ssrc, run), ssrc)
    decreases |run|
  {
    hide Complete, Take, Memory, Admissible, StepSafe;
    if run != [] {
      StepComplete(l, mem, ssrc, run[0]);
      RunComplete(Take(l, ssrc, run[0]), Memory(l, mem, run[0]), ssrc, run[1..]);
    }
  }

  lemma NewComplete(st: Stream, cfg: MatrixConfig, size: nat, last: int, ssrc: nat)
    requires cfg.Valid() && View(st, last, size).Valid()
    ensures Complete(Link(View(st, last, size), NewDecoder(cfg, size, st.Key(last)), {}), [], ssrc)
  {
    NewLinked(st, cfg, size, last, ssrc);
  }

  // ---- an encoder's groups never fill the queue ----

  /** A whole column or row of the matrices that start at position 0. */
  predicate Aligned(cfg: MatrixConfig, g: Group)
    requires cfg.Valid()
  {
    WindowBound(cfg);
    || (g.stride == cfg.cols && g.count == cfg.rows && g.b % cfg.Matrix() < cfg.cols)
    || (!cfg.columnOnly && g.stride == 1 && g.count == cfg.cols && g.b % cfg.cols == 0)
  }

  /** The packets an encoder puts out are of aligned groups. */
  lemma EncoderAligned(st: Stream, cfg: MatrixConfig, size: nat, n: nat, i: nat) returns (g: Group)
    requires cfg.Valid() && n < |st.sent| && i < |FecEncoder.Emitted(st, cfg, size, n)|
    ensures Aligned(cfg, g) && st.HasGroup(g.b, g.stride, g.count) && g.End() == n
    ensures FecEncoder.Emitted(st, cfg, size, n)[i].packet == FecOf(st, g.b, g.stride, g.count, size, cfg.variant)
  {
    hide FecOf, Stream.HasGroup, Mul, FecEncoder.Emitted, FecEncoder.Place, MatrixConfig.Matrix;
    WindowBound(cfg);
    FecEncoder.EmitsOnSchedule(st, cfg, size, n);
    FecEncoder.PlaceIs(cfg, n);
    var (rows, c) := FecEncoder.Place(cfg, n);
    if FecEncoder.ColumnFull(cfg, rows) && i == 0 {
      g := Group(Mul(rows - (cfg.rows - 1), cfg.cols) + c, cfg.cols, cfg.rows);
      MulSub(rows, cfg.rows - 1, cfg.cols);
      ColumnAligned(cfg, rows, c);
    } else {
      g := Group(Mul(rows, cfg.cols), 1, cfg.cols);
      MulOne(cfg.cols - 1);
      MulIs(rows, cfg.cols);
      DivModUnique(g.b, cfg.cols, rows, 0);
    }
  }

  lemma ColumnAligned(cfg: MatrixConfig, rows: nat, c: nat)
    requires cfg.Valid() && c < cfg.cols && rows % cfg.rows == cfg.rows - 1
    ensures cfg.Matrix() > 0 && (Mul(rows - (cfg.rows - 1), cfg.cols) + c) % cfg.Matrix() == c
  {
    var (L, D, k) := (cfg.cols, cfg.rows, rows / cfg.rows);
    WindowBound(cfg);
    assert rows == D * k + (D - 1);
    assert Mul(D * k, L) == cfg.Matrix() * k by { assert (D * k) * L == (L * D) * k; }
    MulMono(1, D, L);
    assert c < cfg.Matrix();
    DivModUnique(cfg.Matrix() * k + c, cfg.Matrix(), k, c);
  }

  /** How many matrices a window can touch at one place of the matrix. */
  function Turns(cfg: MatrixConfig): (k: nat)
    requires cfg.Valid()
  {
    WindowBound(cfg);
    cfg.Window() / cfg.Matrix() + 1
  }

  function Labels(cfg: MatrixConfig): nat
    requires cfg.Valid()
  {
    WindowBound(cfg);
    Turns(cfg) * cfg.cols + cfg.Window() / cfg.cols + 1
  }

  /** A number that tells the aligned groups of one window apart: columns first. */
  function Label(cfg: MatrixConfig, lo: int, g: Group): (r: nat)
    requires cfg.Valid() && Aligned(cfg, g) && lo <= g.b <= lo + cfg.Window()
    ensures r < Labels(cfg)
    ensures r < Turns(cfg) * cfg.cols <==> g.stride == cfg.cols
  {
    WindowBound(cfg);
    DivBelow(g.b - lo, cfg.Window(), cfg.Matrix());
    DivBelow(g.b - lo, cfg.Window(), cfg.cols);
    if g.stride == cfg.cols then
      LabelBelow(g.b % cfg.Matrix(), (g.b - lo) / cfg.Matrix(), Turns(cfg), cfg.cols);
      g.b % cfg.Matrix() * Turns(cfg) + (g.b - lo) / cfg.Matrix()
    else
      Turns(cfg) * cfg.cols + (g.b - lo) / cfg.cols
  }

  lemma DivBelow(x: nat, y: nat, n: nat)
    requires x <= y && n > 0
    ensures 0 <= x / n <= y / n
  {
    if x / n > y / n { MulMono(y / n + 1, x / n, n); }
  }

  lemma LabelBelow(c: nat, i: nat, k: nat, cols: nat)
    requires c < cols && i < k
    ensures 0 <= c * k + i < k * cols
  {
    MulMono(c + 1, cols, k);
    MulDistributes(c, 1, k);
  }

  lemma LabelTells(cfg: MatrixConfig, lo: int, g: Group, h: Group)
    requires cfg.Valid() && Aligned(cfg, g) && Aligned(cfg, h)
    requires lo <= g.b <= lo + cfg.Window() && lo <= h.b <= lo + cfg.Window() && Label(cfg, lo, g) == Label(cfg, lo, h)
    ensures g == h
  {
    WindowBound(cfg);
    if g.stride == cfg.cols {
      DivBelow(g.b - lo, cfg.Window(), cfg.Matrix());
      DivBelow(h.b - lo, cfg.Window(), cfg.Matrix());
      var (c, i, e, j) := (g.b % cfg.Matrix(), (g.b - lo) / cfg.Matrix(), h.b % cfg.Matrix(), (h.b - lo) / cfg.Matrix());
      if c != e || i != j { DigitsDiffer(c, i, e, j, Turns(cfg)); }
      SameDigit(g.b, h.b, lo, cfg.Matrix());
    } else {
      SameDigit(g.b, h.b, lo, cfg.cols);
    }
  }

  lemma SameDigit(x: int, y: int, lo: int, n: nat)
    requires n > 0 && x % n == y % n && (x - lo) / n == (y - lo) / n
    ensures x == y
  {
    SameClass(x, y, n);
  }

  /** Those labels are fewer than the queue's places. */
  lemma LabelsFit(cfg: MatrixConfig)
    requires cfg.Valid()
    ensures Labels(cfg) < cfg.MaxFecs()
  {
    hide Turns, MatrixConfig.Window;
    WindowBound(cfg);
    TurnsFit(cfg);
    RowsFit(cfg);
  }

  lemma TurnsFit(cfg: MatrixConfig)
    requires cfg.Valid()
    ensures Turns(cfg) * cfg.cols <= 4 * cfg.cols + 4
  {
    hide MatrixConfig.Matrix;
    WindowBound(cfg);
    var (L, M) := (cfg.cols, cfg.Matrix());
    MatrixWide(cfg);
    if M >= 11 {
      DivModUnique(cfg.Window(), M, 3, L + 8);
    } else {
      DivBelow(cfg.Window(), 6 * M - 1, M);
      DivModUnique(6 * M - 1, M, 5, M - 1);
      MulMono(Turns(cfg), 6, L);
    }
  }

  lemma MatrixWide(cfg: MatrixConfig)
    requires cfg.Valid()
    ensures 4 * cfg.cols <= cfg.Matrix()
  {
    MulMono(4, cfg.rows, cfg.cols);
  }

  lemma RowsFit(cfg: MatrixConfig)
    requires cfg.Valid()
    ensures cfg.Window() / cfg.cols <= 3 * cfg.rows + 9
  {
    hide MatrixConfig.Matrix;
    WideSpread(cfg.cols, cfg.rows);
    MatrixIs(cfg);
    QuotientAtMost(cfg.Window(), cfg.cols, 3 * cfg.rows + 9);
  }

  lemma WideSpread(cols: nat, rows: nat)
    ensures cols * (3 * rows + 9) == 3 * (cols * rows) + 9 * cols
  {
  }

  lemma MatrixIs(cfg: MatrixConfig)
    ensures cfg.Matrix() == cfg.cols * cfg.rows
  {
  }

  lemma QuotientAtMost(x: nat, n: nat, q: nat)
    requires n > 0 && x <= n * q
    ensures x / n <= q
  {
    DivBelow(x, n * q, n);
    DivModUnique(n * q, n, q, 0);
  }

  predicate Distinct(mem: seq<Group>) { forall i, j :: 0 <= i < j < |mem| ==> mem[i] != mem[j] }

  /** Distinct aligned groups that start within one window do not fill the queue. */
  lemma Uncrowded(cfg: MatrixConfig, lo: int, mem: seq<Group>)
    requires cfg.Valid() && Distinct(mem)
    requires forall g :: g in mem ==> Aligned(cfg, g) && lo <= g.b <= lo + cfg.Window()
    ensures |mem| < cfg.MaxFecs()
  {
    hide MatrixConfig.Window, MatrixConfig.Valid, MatrixConfig.MaxFecs, Aligned, Label, Labels, Turns;
    var labels := seq(|mem|, i requires 0 <= i < |mem| => Label(cfg, lo, mem[i]));
    forall i, j | 0 <= i < j < |mem| ensures labels[i] != labels[j] {
      if labels[i] == labels[j] { LabelTells(cfg, lo, mem[i], mem[j]); }
    }
    LabelsFit(cfg);
    Pigeonhole(labels, Labels(cfg));
  }

  /** FEC packets of aligned groups that do not start ahead of the newest media, after
      some media. */
  predicate Timely(l: Link, a: Arrival)
    requires l.d.cfg.Valid()
  {
    a.FecAt? ==> l.seen != {} && a.b <= l.v.last && Aligned(l.d.cfg, Group(a.b, a.stride, a.count))
  }

  predicate RunTimely(l: Link, ssrc: nat, run: seq<Arrival>)
    requires RunAdmissible(l, ssrc, run)
    decreases |run|
  {
    run == [] || (l.d.cfg.Valid() && Timely(l, run[0]) && RunTimely(Take(l, ssrc, run[0]), ssrc, run[1..]))
  }

  function Heard(a: Arrival): set<Group> {
    if a.FecAt? then {Group(a.b, a.stride, a.count)} else {}
  }

  function AllHeard(run: seq<Arrival>): set<Group> {
    if run == [] then {} else Heard(run[0]) + AllHeard(run[1..])
  }

  /** The queue holds every group heard that starts in the window ending at last. */
  predicate KeepsAll(cfg: MatrixConfig, last: int, mem: seq<Group>, heard: set<Group>) {
    && cfg.Valid() && Distinct(mem)
    && (forall g :: g in mem ==> Aligned(cfg, g) && last - cfg.Window() <= g.b <= last)
    && (forall g :: g in heard && g.b >= last - cfg.Window() ==> g in mem)
  }

  predicate Keeps(l: Link, mem: seq<Group>, heard: set<Group>) {
    KeepsAll(l.d.cfg, l.v.last, mem, heard) && (l.seen == {} ==> mem == [] && heard == {})
  }

  lemma {:induction false} RecentDistinct(mem: seq<Group>, last: int, w: nat)
    requires Distinct(mem)
    ensures Distinct(Recent(mem, last, w))
  {
    if mem != [] {
      var n := |mem| - 1;
      RecentDistinct(mem[..n], last, w);
      RecentIs(mem[..n], last, w);
      assert forall i :: 0 <= i < |Recent(mem[..n], last, w)| ==> Recent(mem[..n], last, w)[i] in mem[..n];
    }
  }

  lemma MovesOn(cfg: MatrixConfig, last: int, mem: seq<Group>, heard: set<Group>, next: int)
    requires KeepsAll(cfg, last, mem, heard) && last <= next
    ensures KeepsAll(cfg, next, Recent(mem, next, cfg.Window()), heard)
  {
    hide MatrixConfig.Window, MatrixConfig.Valid, Recent, Aligned;
    WindowBound(cfg);
    RecentIs(mem, next, cfg.Window());
    RecentDistinct(mem, next, cfg.Window());
  }

  lemma Joins(cfg: MatrixConfig, last: int, mem: seq<Group>, heard: set<Group>, g: Group)
    requires KeepsAll(cfg, last, mem, heard) && Aligned(cfg, g) && g.b <= last
    ensures KeepsAll(cfg, last, Recent(Remember(mem, g, cfg.MaxFecs()), last, cfg.Window()), heard + {g})
  {
    hide MatrixConfig.Window, MatrixConfig.Valid, MatrixConfig.MaxFecs, Recent, Aligned;
    WindowBound(cfg);
    Uncrowded(cfg, last - cfg.Window(), mem);
    var kept := Remember(mem, g, cfg.MaxFecs());
    assert forall h :: h in kept <==> h in mem || h == g;
    RecentIs(kept, last, cfg.Window());
    RecentDistinct(kept, last, cfg.Window());
  }

  lemma StepKeeps(l: Link, mem: seq<Group>, heard: set<Group>, ssrc: nat, a: Arrival)
    requires Complete(l, mem, ssrc) && Keeps(l, mem, heard) && Admissible(l, a) && Timely(l, a)
    ensures Keeps(Take(l, ssrc, a), Memory(l, mem, a), heard + Heard(a))
  {
    hide Complete, Take, MatrixConfig.Window, MatrixConfig.Valid, MatrixConfig.MaxFecs, Stream.Key, Recent, FecArrives, Is, Aligned,
         Arrives, KeepsAll, Remember;
    CompleteShape(l, mem, ssrc);
    TakeSame(l, ssrc, a);
    TakeCfg(l, ssrc, a);
    match a
    case MediaAt(p) =>
      var next := Newest(l.v, l.d, p);
      assert heard + Heard(a) == heard;
      if l.seen == {} { NothingKept(l.d.cfg, next, l.d.cfg.Window()); } else { MovesOn(l.d.cfg, l.v.last, mem, heard, next); }
    case FecAt(b, stride, count) => Joins(l.d.cfg, l.v.last, mem, heard, Group(b, stride, count));
  }

  lemma NothingKept(cfg: MatrixConfig, last: int, w: nat)
    requires cfg.Valid()
    ensures KeepsAll(cfg, last, Recent([], last, w), {})
  {
  }

  lemma TakeCfg(l: Link, ssrc: nat, a: Arrival)
    requires Admissible(l, a)
    ensures Take(l, ssrc, a).d.cfg == l.d.cfg
  {
    hide Settle, Evict, Widen, FecOf, Stream.Key;
    match a
    case MediaAt(p) =>
      var d1 := Advance(l.d.(out := []), l.v.st.Key(p));
      SettleAnchor(d1.(media := d1.media[l.v.st.Key(p) := Kept(l.v.st.sent[p], ssrc)]));
    case FecAt(b, stride, count) =>
      var p := FecOf(l.v.st, b, stride, count, l.v.size, l.d.cfg.variant);
      var d1 := Store(MakeRoom(l.d.(out := [])), Widen(l.d.lastSeq, l.d.cfg.variant, p.snBase), p);
      SettleAnchor(d1);
      EvictCfg(l.d.(out := []));
  }

  lemma EvictCfg(d: Decoder)
    ensures Evict(d).cfg == d.cfg
  {
  }

  lemma {:induction false} RunKeeps(l: Link, mem: seq<Group>, heard: set<Group>, ssrc: nat, run: seq<Arrival>)
    requires Complete(l, mem, ssrc) && Keeps(l, mem, heard) && RunAdmissible(l, ssrc, run) && RunTimely(l, ssrc, run)
    ensures Keeps(EndOf(l, ssrc, run), MemoryAfter(l, mem, ssrc, run), heard + AllHeard(run))
    decreases |run|
  {
    hide Complete, Take, Memory, Admissible, StepSafe, Keeps, Timely, Heard;
    if run != [] {
      StepComplete(l, mem, ssrc, run[0]);
      StepKeeps(l, mem, heard, ssrc, run[0]);
      RunKeeps(Take(l, ssrc, run[0]), Memory(l, mem, run[0]), heard + Heard(run[0]), ssrc, run[1..]);
      assert heard + Heard(run[0]) + AllHeard(run[1..]) == heard + AllHeard(run);
    } else {
      assert heard + AllHeard(run) == heard;
    }
  }

  /** From a new decoder, over every timely run of an encoder's stream: a group whose FEC
      packet arrived at any time, while it is in the window, never has exactly one member
      neither received nor rebuilt. */
  lemma EveryLossRebuilt(st: Stream, cfg: MatrixConfig, size: nat, last: int, ssrc: nat, run: seq<Arrival>, g: Group, q: int)
    requires cfg.Valid() && View(st, last, size).Valid()
    requires var l := Link(View(st, last, size), NewDecoder(cfg, size, st.Key(last)), {});
      && RunAdmissible(l, ssrc, run) && RunTimely(l, ssrc, run) && g in AllHeard(run)
      && EndOf(l, ssrc, run).v.last - cfg.Window() <= g.b && g.End() <= EndOf(l, ssrc, run).v.last
    ensures var l := Link(View(st, last, size), NewDecoder(cfg, size, st.Key(last)), {});
      g.Slots() - EndOf(l, ssrc, run).seen != {q}
  {
    hide Complete, Take, Memory, Admissible, RunTimely, AllHeard, EndOf, MemoryAfter, MatrixConfig.Valid, MatrixConfig.Window,
         Aligned, RunAdmissible;
    var l := Link(View(st, last, size), NewDecoder(cfg, size, st.Key(last)), {});
    NewComplete(st, cfg, size, last, ssrc);
    RunComplete(l, [], ssrc, run);
    RunKeeps(l, [], {}, ssrc, run);
    RunCfg(l, ssrc, run);
    NeverOneMissing(EndOf(l, ssrc, run), MemoryAfter(l, [], ssrc, run), ssrc, g, q);
  }

  lemma {:induction false} RunCfg(l: Link, ssrc: nat, run: seq<Arrival>)
    requires RunAdmissible(l, ssrc, run)
    ensures EndOf(l, ssrc, run).d.cfg == l.d.cfg
    decreases |run|
  {
    hide Take, Admissible;
    if run != [] {
      TakeCfg(l, ssrc, run[0]);
      RunCfg(Take(l, ssrc, run[0]), ssrc, run[1..]);
    }
  }
}
