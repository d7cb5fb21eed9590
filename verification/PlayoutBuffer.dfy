/** The receiver's ring and playout cursor (internal/flow/receiver.go): insertion
    by `seqno & mask`, time-driven in-order delivery, and skipping.

    The functions below are the specification the imperative receiver is proved
    against. Their own meaning is given by the ordered queue of buffered packets,
    `Queue`: under the window assumption, insertion is a sorted insert and `Drain`
    plays the due prefix. */
module PlayoutBuffer {
  import opened Serial
  import opened FlowTypes

  /** Sequence s is buffered in its own slot. */
  predicate HoldsAt(ring: seq<Slot>, s: u32)
    requires |ring| > 0
  {
    ring[s % |ring|].Filled? && ring[s % |ring|].held.seqno == s
  }

  datatype Buffer = Buffer(
    ring: seq<Slot>,
    deliverNext: u32,
    highest: u32,
    pending: bool,
    events: seq<Deliver>,
    received: nat,
    overwritten: nat,
    delivered: nat,
    lost: nat,
    discontinuities: nat)
  {
    /** How far the newest accepted packet is ahead of the cursor. */
    function Ahead(): int { Distance(deliverNext, highest) }

    predicate Holds(s: u32)
      requires |ring| > 0
    {
      HoldsAt(ring, s)
    }

    function Get(s: u32): Held
      requires |ring| > 0 && Holds(s)
    {
      ring[s % |ring|].held
    }

    /** What every operation keeps, for any input whatever: a buffered packet
        sits in its own slot and lies between the cursor and the newest one. */
    predicate Valid() {
      && RingSize(|ring|)
      && -1 <= Ahead() < HALF
      && forall i :: 0 <= i < |ring| && ring[i].Filled? ==>
           ring[i].held.seqno % |ring| == i && Fwd(deliverNext, ring[i].held.seqno) <= Ahead()
    }

    /** The window assumption: everything accepted is within one ring span of
        the cursor. With Valid it bounds every buffered packet as well. */
    predicate Windowed() { Ahead() < |ring| }

    predicate NothingBuffered() {
      forall i :: 0 <= i < |ring| ==> ring[i].Empty?
    }
  }

  datatype Wake = Idle | WakeAt(deadline: int)

  function ToEvent(h: Held, discontinuity: bool): Deliver {
    Deliver(h.seqno, h.sourceTime, h.payload, discontinuity, h.frag, h.virtSrcPort, h.virtDstPort)
  }

  // ---- the operations ----

  /** Insert one accepted packet, overwriting a stale slot. */
  function Insert(b: Buffer, h: Held): Buffer
    requires b.Valid()
  {
    var i := h.seqno % |b.ring|;
    b.(ring := b.ring[i := Filled(h)],
       highest := if Less(b.highest, h.seqno) then h.seqno else b.highest,
       received := b.received + 1,
       overwritten := if b.ring[i].Filled? then b.overwritten + 1 else b.overwritten)
  }

  /** Hand the packet at the cursor to the application. */
  function Emit(b: Buffer): Buffer
    requires b.Valid() && b.Holds(b.deliverNext)
  {
    b.(ring := b.ring[b.deliverNext % |b.ring| := Empty],
       deliverNext := Add(b.deliverNext, 1),
       pending := false,
       events := b.events + [ToEvent(b.Get(b.deliverNext), b.pending)],
       delivered := b.delivered + 1)
  }

  /** Empty the slots of k consecutive sequences from `from`. */
  function ClearSpan(ring: seq<Slot>, from: u32, k: nat): (r: seq<Slot>)
    requires |ring| > 0
    ensures |r| == |ring|
    decreases k
  {
    if k == 0 then ring else ClearSpan(ring[from % |ring| := Empty], Add(from, 1), k - 1)
  }

  /** Abandon the k sequences at the cursor as lost. */
  function Skip(b: Buffer, k: nat): Buffer
    requires b.Valid() && k <= SPACE
  {
    b.(ring := ClearSpan(b.ring, b.deliverNext, k),
       deliverNext := Add(b.deliverNext, k),
       pending := true,
       lost := b.lost + k,
       discontinuities := b.discontinuities + 1)
  }

  /** The least offset in k..limit at which a packet is buffered, or limit + 1. */
  function Find(b: Buffer, k: nat, limit: nat): (r: nat)
    requires b.Valid() && k <= limit + 1 && limit <= SPACE
    ensures k <= r <= limit + 1
    ensures r <= limit ==> b.Holds(Add(b.deliverNext, r))
    ensures forall j :: k <= j < r ==> !b.Holds(Add(b.deliverNext, j))
    decreases limit + 1 - k
  {
    if k > limit || b.Holds(Add(b.deliverNext, k)) then k else Find(b, k + 1, limit)
  }

  /** Deliver everything due at `now`; the result says when to wake next. */
  function Drain(b: Buffer, now: int): (r: (Buffer, Wake))
    requires b.Valid()
    ensures r.0.Valid()
    ensures |r.0.ring| == |b.ring| && r.0.highest == b.highest
    ensures r.0.received == b.received && r.0.overwritten == b.overwritten
    decreases b.Ahead() + 1
  {
    if b.Holds(b.deliverNext) then
      var due := b.Get(b.deliverNext).outputTime;
      if now < due then (b, WakeAt(due)) else
      EmitValid(b);
      Drain(Emit(b), now)
    else
      var dist := b.Ahead();
      if dist <= 0 then (b, Idle) else
      var limit := Min(dist, |b.ring|);
      var k := Find(b, 1, limit);
      if k > limit then
        if dist > |b.ring| then
          SkipValid(b, |b.ring|);
          Drain(Skip(b, |b.ring|), now)
        else (b, Idle)
      else
        var due := b.Get(Add(b.deliverNext, k)).outputTime;
        if now < due then (b, WakeAt(due)) else
        SkipValid(b, k);
        Drain(Skip(b, k), now)
  }

  // ---- validity ----

  lemma InsertValid(b: Buffer, h: Held)
    requires b.Valid() && !Less(h.seqno, b.deliverNext)
    ensures Insert(b, h).Valid()
    ensures Insert(b, h).Ahead() == Max(b.Ahead(), Fwd(b.deliverNext, h.seqno))
  {
  }

  lemma EmitValid(b: Buffer)
    requires b.Valid() && b.Holds(b.deliverNext)
    ensures Emit(b).Valid() && Emit(b).Ahead() == b.Ahead() - 1
  {
    var r := Emit(b);
    forall i | 0 <= i < |r.ring| && r.ring[i].Filled?
      ensures Fwd(r.deliverNext, r.ring[i].held.seqno) <= r.Ahead()
    {
      assert r.ring[i] == b.ring[i] && i != b.deliverNext % |b.ring|;
    }
  }

  /** What ClearSpan does to each slot. */
  lemma {:induction false} ClearSpanSpec(ring: seq<Slot>, from: u32, k: nat)
    requires RingSize(|ring|) && k <= SPACE
    ensures forall i :: 0 <= i < |ring| ==>
      var c := ClearSpan(ring, from, k); c[i] == ring[i] || c[i].Empty?
    ensures forall j :: 0 <= j < k ==> ClearSpan(ring, from, k)[Add(from, j) % |ring|].Empty?
    ensures forall i :: 0 <= i < |ring| && (forall j :: 0 <= j < k ==> Add(from, j) % |ring| != i) ==>
      ClearSpan(ring, from, k)[i] == ring[i]
    decreases k
  {
    if k > 0 {
      var n := |ring|;
      var mid := ring[from % n := Empty];
      var next := Add(from, 1);
      ClearSpanSpec(mid, next, k - 1);
      var c := ClearSpan(ring, from, k);
      assert c == ClearSpan(mid, next, k - 1);
      forall j | 0 <= j < k ensures c[Add(from, j) % n].Empty? {
        if j > 0 { assert Add(from, j) == Add(next, j - 1); }
      }
      forall i | 0 <= i < n && (forall j :: 0 <= j < k ==> Add(from, j) % n != i)
        ensures c[i] == ring[i]
      {
        assert Add(from, 0) % n != i;
        forall j | 0 <= j < k - 1 ensures Add(next, j) % n != i {
          assert Add(from, j + 1) == Add(next, j);
        }
      }
    }
  }

  lemma SkipValid(b: Buffer, k: nat)
    requires b.Valid() && 1 <= k <= b.Ahead()
    ensures Skip(b, k).Valid() && Skip(b, k).Ahead() == b.Ahead() - k
  {
    var r := Skip(b, k);
    ClearSpanSpec(b.ring, b.deliverNext, k);
    forall i | 0 <= i < |r.ring| && r.ring[i].Filled?
      ensures r.ring[i].held.seqno % |r.ring| == i && Fwd(r.deliverNext, r.ring[i].held.seqno) <= r.Ahead()
    {
      var s := b.ring[i].held.seqno;
      var f := Fwd(b.deliverNext, s);
      assert Add(b.deliverNext, f) == s;
    }
  }

  /** Every sequence the cursor passes between b and r is delivered or lost. */
  predicate Accounts(b: Buffer, r: Buffer) {
    && r.delivered + r.lost == b.delivered + b.lost + Fwd(b.deliverNext, r.deliverNext)
    && Fwd(b.deliverNext, r.deliverNext) == b.Ahead() - r.Ahead()
  }

  lemma AccountsTransitive(a: Buffer, b: Buffer, c: Buffer)
    requires Accounts(a, b) && Accounts(b, c) && -1 <= c.Ahead() && a.Ahead() < HALF
    ensures Accounts(a, c)
  {
  }

  /** One turn of the drain. */
  lemma DrainUnfold(b: Buffer, now: int)
    requires b.Valid()
    ensures b.Holds(b.deliverNext) ==>
      var due := b.Get(b.deliverNext).outputTime;
      && (now < due ==> Drain(b, now) == (b, WakeAt(due)))
      && (now >= due ==> Emit(b).Valid() && Drain(b, now) == Drain(Emit(b), now))
    ensures !b.Holds(b.deliverNext) && b.Ahead() <= 0 ==> Drain(b, now) == (b, Idle)
    ensures !b.Holds(b.deliverNext) && b.Ahead() > 0 ==>
      var limit := Min(b.Ahead(), |b.ring|);
      var k := Find(b, 1, limit);
      && (k > limit && b.Ahead() <= |b.ring| ==> Drain(b, now) == (b, Idle))
      && (k > limit && b.Ahead() > |b.ring| ==>
            Skip(b, |b.ring|).Valid() && Drain(b, now) == Drain(Skip(b, |b.ring|), now))
      && (k <= limit ==>
            var due := b.Get(Add(b.deliverNext, k)).outputTime;
            && (now < due ==> Drain(b, now) == (b, WakeAt(due)))
            && (now >= due ==> Skip(b, k).Valid() && Drain(b, now) == Drain(Skip(b, k), now)))
  {
    if b.Holds(b.deliverNext) {
      EmitValid(b);
    } else if b.Ahead() > 0 {
      if b.Ahead() > |b.ring| { SkipValid(b, |b.ring|); }
      var k := Find(b, 1, Min(b.Ahead(), |b.ring|));
      if k <= b.Ahead() { SkipValid(b, k); }
    }
  }

  lemma EmitAccounts(b: Buffer)
    requires b.Valid() && b.Holds(b.deliverNext)
    ensures Emit(b).Valid() && Emit(b).Ahead() == b.Ahead() - 1 && Accounts(b, Emit(b))
  {
    EmitValid(b);
  }

  lemma SkipAccounts(b: Buffer, k: nat)
    requires b.Valid() && 1 <= k <= b.Ahead()
    ensures Skip(b, k).Valid() && Skip(b, k).Ahead() == b.Ahead() - k && Accounts(b, Skip(b, k))
  {
    hide ClearSpan;
    SkipValid(b, k);
  }

  lemma AccountsSelf(b: Buffer)
    ensures Accounts(b, b)
  {
  }

  lemma {:induction false} DrainAccounts(b: Buffer, now: int)
    requires b.Valid()
    ensures Accounts(b, Drain(b, now).0)
    decreases b.Ahead() + 1
  {
    hide Drain, Emit, Skip, Find, Accounts, Fwd, Add;
    var r := Drain(b, now).0;
    DrainUnfold(b, now);
    AccountsSelf(b);
    if b.Holds(b.deliverNext) {
      EmitAccounts(b);
      if now >= b.Get(b.deliverNext).outputTime {
        DrainAccounts(Emit(b), now);
        AccountsTransitive(b, Emit(b), r);
      }
    } else if b.Ahead() > 0 {
      var limit := Min(b.Ahead(), |b.ring|);
      var found := Find(b, 1, limit);
      var k := if found > limit then |b.ring| else found;
      if if found > limit then b.Ahead() > |b.ring| else now >= b.Get(Add(b.deliverNext, k)).outputTime {
        SkipAccounts(b, k);
        DrainAccounts(Skip(b, k), now);
        AccountsTransitive(b, Skip(b, k), r);
      }
    }
  }

  // ---- nothing early, nothing invented ----

  /** Event e hands over a packet buffered in ring that was due at now. */
  predicate WasDue(ring: seq<Slot>, e: Deliver, now: int) {
    exists i :: 0 <= i < |ring| && ring[i].Filled? && ring[i].held.outputTime <= now
             && e == ToEvent(ring[i].held, e.discontinuity)
  }

  /** The slots of r are slots of ring, or were emptied. */
  predicate Thinned(ring: seq<Slot>, r: seq<Slot>) {
    |r| == |ring| && forall i :: 0 <= i < |r| ==> r[i] == ring[i] || r[i].Empty?
  }

  /** Drain only appends events, and each is a packet whose own output time had
      come, with no window assumption. */
  lemma {:induction false} DrainOnlyDue(b: Buffer, now: int)
    requires b.Valid()
    ensures var r := Drain(b, now).0;
      && Thinned(b.ring, r.ring)
      && |b.events| <= |r.events| && r.events[..|b.events|] == b.events
      && forall j :: |b.events| <= j < |r.events| ==> WasDue(b.ring, r.events[j], now)
    decreases b.Ahead() + 1
  {
    if b.Holds(b.deliverNext) {
      if now >= b.Get(b.deliverNext).outputTime {
        EmitValid(b);
        DrainOnlyDue(Emit(b), now);
        DueEarlier(b, Emit(b), now, Drain(b, now).0);
      }
    } else if b.Ahead() > 0 {
      var limit := Min(b.Ahead(), |b.ring|);
      var found := Find(b, 1, limit);
      var k := if found > limit then |b.ring| else found;
      if if found > limit then b.Ahead() > |b.ring| else now >= b.Get(Add(b.deliverNext, k)).outputTime {
        SkipValid(b, k);
        ClearSpanSpec(b.ring, b.deliverNext, k);
        DrainOnlyDue(Skip(b, k), now);
        DueEarlier(b, Skip(b, k), now, Drain(b, now).0);
      }
    }
  }

  /** What is due from a thinned ring was due from the ring. */
  lemma DueEarlier(b: Buffer, m: Buffer, now: int, r: Buffer)
    requires Thinned(b.ring, m.ring) && Thinned(m.ring, r.ring)
    requires |b.events| <= |m.events| <= |r.events| && m.events[..|b.events|] == b.events
    requires r.events[..|m.events|] == m.events
    requires forall j :: |b.events| <= j < |m.events| ==> WasDue(b.ring, m.events[j], now)
    requires forall j :: |m.events| <= j < |r.events| ==> WasDue(m.ring, r.events[j], now)
    ensures Thinned(b.ring, r.ring) && r.events[..|b.events|] == b.events
    ensures forall j :: |b.events| <= j < |r.events| ==> WasDue(b.ring, r.events[j], now)
  {
    assert forall j :: 0 <= j < |m.events| ==> r.events[j] == r.events[..|m.events|][j];
    forall j | |m.events| <= j < |r.events| ensures WasDue(b.ring, r.events[j], now) {
      var e := r.events[j];
      var i :| 0 <= i < |m.ring| && m.ring[i].Filled? && m.ring[i].held.outputTime <= now
             && e == ToEvent(m.ring[i].held, e.discontinuity);
      assert m.ring[i] == b.ring[i];
    }
  }

  // ---- the ordered queue the ring stands for ----

  /** The packets buffered at offsets k..top-1 from cursor c, in order. */
  function Span(ring: seq<Slot>, c: u32, k: nat, top: nat): seq<Held>
    requires RingSize(|ring|) && k <= top <= SPACE
    decreases top - k
  {
    if k == top then [] else ReadAt(ring, Add(c, k)) + Span(ring, c, k + 1, top)
  }

  /** The packet buffered under s, if there is one. */
  function ReadAt(ring: seq<Slot>, s: u32): seq<Held>
    requires |ring| > 0
  {
    if HoldsAt(ring, s) then [ring[s % |ring|].held] else []
  }

  function Queue(b: Buffer): seq<Held>
    requires b.Valid()
  {
    Span(b.ring, b.deliverNext, 0, b.Ahead() + 1)
  }

  lemma {:induction false} SpanSplit(ring: seq<Slot>, c: u32, k: nat, m: nat, top: nat)
    requires RingSize(|ring|) && k <= m <= top <= SPACE
    ensures Span(ring, c, k, top) == Span(ring, c, k, m) + Span(ring, c, m, top)
    decreases m - k
  {
    if k < m { SpanSplit(ring, c, k + 1, m, top); }
  }

  lemma {:induction false} SpanOfHoles(ring: seq<Slot>, c: u32, k: nat, top: nat)
    requires RingSize(|ring|) && k <= top <= SPACE
    requires forall j :: k <= j < top ==> !HoldsAt(ring, Add(c, j))
    ensures Span(ring, c, k, top) == []
    decreases top - k
  {
    if k < top { SpanOfHoles(ring, c, k + 1, top); }
  }

  /** Both rings hold s, and the same packet, or neither does. */
  predicate SameAt(ring: seq<Slot>, ring': seq<Slot>, s: u32)
    requires |ring| == |ring'| > 0
  {
    && HoldsAt(ring, s) == HoldsAt(ring', s)
    && (HoldsAt(ring, s) ==> ring[s % |ring|] == ring'[s % |ring|])
  }

  /** Spans agree when the rings agree on what they hold, from cursors d apart. */
  lemma {:induction false} SpanShift(ring: seq<Slot>, ring': seq<Slot>, c: u32, d: nat, k: nat, top: nat)
    requires RingSize(|ring|) && |ring'| == |ring| && k <= top && top + d <= SPACE
    requires forall j :: k + d <= j < top + d ==> SameAt(ring, ring', Add(c, j))
    ensures Span(ring', Add(c, d), k, top) == Span(ring, c, k + d, top + d)
    decreases top - k
  {
    hide ReadAt, SameAt, Add;
    if k < top {
      AddShift(c, d, k);
      ReadsSame(ring, ring', Add(c, k + d));
      SpanShift(ring, ring', c, d, k + 1, top);
    }
  }

  lemma AddShift(c: u32, d: nat, k: nat)
    requires d + k <= SPACE
    ensures Add(Add(c, d), k) == Add(c, k + d)
  {
  }

  lemma ReadsSame(ring: seq<Slot>, ring': seq<Slot>, s: u32)
    requires |ring'| == |ring| > 0 && SameAt(ring, ring', s)
    ensures ReadAt(ring', s) == ReadAt(ring, s)
  {
  }

  /** q is in strictly increasing order, at offsets lo..hi-1 from cursor c. */
  predicate Ordered(q: seq<Held>, c: u32, lo: int, hi: int) {
    && (forall i :: 0 <= i < |q| ==> lo <= Fwd(c, q[i].seqno) < hi)
    && (forall i, j :: 0 <= i < j < |q| ==> Fwd(c, q[i].seqno) < Fwd(c, q[j].seqno))
  }

  lemma OrderedCons(h: Held, q: seq<Held>, c: u32, k: int, hi: int)
    requires Ordered(q, c, k + 1, hi) && Fwd(c, h.seqno) == k < hi
    ensures Ordered([h] + q, c, k, hi)
  {
    var r := [h] + q;
    assert forall i :: 1 <= i < |r| ==> r[i] == q[i - 1];
  }

  lemma {:induction false} SpanSorted(ring: seq<Slot>, c: u32, k: nat, top: nat)
    requires RingSize(|ring|) && k <= top <= SPACE
    ensures Ordered(Span(ring, c, k, top), c, k, top)
    decreases top - k
  {
    if k < top {
      var rest := Span(ring, c, k + 1, top);
      SpanSorted(ring, c, k + 1, top);
      if HoldsAt(ring, Add(c, k)) {
        assert Fwd(c, Add(c, k)) == k;
        OrderedCons(ring[Add(c, k) % |ring|].held, rest, c, k, top);
      } else {
        OrderedWeaken(rest, c, k, top);
      }
    }
  }

  lemma OrderedWeaken(q: seq<Held>, c: u32, k: int, hi: int)
    requires Ordered(q, c, k + 1, hi)
    ensures Ordered([] + q, c, k, hi)
  {
    assert [] + q == q;
  }

  /** The queue lists every buffered packet, once, in sequence order. */
  lemma QueueListsRing(b: Buffer)
    requires b.Valid()
    ensures var q := Queue(b);
      && (forall i :: 0 <= i < |q| ==> b.Holds(q[i].seqno) && b.Get(q[i].seqno) == q[i])
      && Ordered(q, b.deliverNext, 0, b.Ahead() + 1)
      && (forall i :: 0 <= i < |b.ring| && b.ring[i].Filled? ==> b.ring[i].held in q)
  {
    hide Span, Ordered, Fwd, Distance;
    SpanSorted(b.ring, b.deliverNext, 0, b.Ahead() + 1);
    forall i | 0 <= i < |b.ring| && b.ring[i].Filled? ensures b.ring[i].held in Queue(b) {
      FwdNatural(b.deliverNext, b.ring[i].held.seqno);
      SpanContains(b.ring, b.deliverNext, 0, b.Ahead() + 1, b.ring[i].held.seqno);
    }
    forall i | 0 <= i < |Queue(b)|
      ensures b.Holds(Queue(b)[i].seqno) && b.Get(Queue(b)[i].seqno) == Queue(b)[i]
    {
      SpanReads(b.ring, b.deliverNext, 0, b.Ahead() + 1, i);
    }
  }

  lemma FwdNatural(a: u32, b: u32)
    ensures 0 <= Fwd(a, b) < SPACE
  {
  }

  lemma {:induction false} SpanContains(ring: seq<Slot>, c: u32, k: nat, top: nat, s: u32)
    requires RingSize(|ring|) && k <= top <= SPACE && k <= Fwd(c, s) < top && HoldsAt(ring, s)
    ensures ring[s % |ring|].held in Span(ring, c, k, top)
    decreases top - k
  {
    if Add(c, k) != s { SpanContains(ring, c, k + 1, top, s); }
  }

  lemma {:induction false} SpanReads(ring: seq<Slot>, c: u32, k: nat, top: nat, i: nat)
    requires RingSize(|ring|) && k <= top <= SPACE && i < |Span(ring, c, k, top)|
    ensures var h := Span(ring, c, k, top)[i]; HoldsAt(ring, h.seqno) && ring[h.seqno % |ring|].held == h
    decreases top - k
  {
    if HoldsAt(ring, Add(c, k)) {
      if i > 0 { SpanReads(ring, c, k + 1, top, i - 1); }
    } else {
      SpanReads(ring, c, k + 1, top, i);
    }
  }

  lemma QueueAfterEmit(b: Buffer)
    requires b.Valid() && b.Holds(b.deliverNext)
    ensures Emit(b).Valid()
    ensures Queue(b) == [b.Get(b.deliverNext)] + Queue(Emit(b))
  {
    EmitValid(b);
    assert Add(b.deliverNext, 0) == b.deliverNext;
    SpanShift(b.ring, Emit(b).ring, b.deliverNext, 1, 0, b.Ahead());
  }

  lemma QueueAfterSkip(b: Buffer, m: nat)
    requires b.Valid() && b.Windowed() && 1 <= m <= b.Ahead()
    requires forall j :: 0 <= j < m ==> !b.Holds(Add(b.deliverNext, j))
    ensures Skip(b, m).Valid() && Queue(Skip(b, m)) == Queue(b)
    ensures b.Holds(Add(b.deliverNext, m)) ==>
      Skip(b, m).Holds(Add(b.deliverNext, m)) && Skip(b, m).Get(Add(b.deliverNext, m)) == b.Get(Add(b.deliverNext, m))
  {
    hide Span, SameAt, ClearSpan;
    SkipValid(b, m);
    var c, top := b.deliverNext, b.Ahead() + 1;
    SpanSplit(b.ring, c, 0, m, top);
    SpanOfHoles(b.ring, c, 0, m);
    forall k | m <= k < top ensures SameAt(b.ring, Skip(b, m).ring, Add(c, k)) { SkipSameAt(b, m, k); }
    SpanShift(b.ring, Skip(b, m).ring, c, m, 0, top - m);
    SameAtReads(b.ring, Skip(b, m).ring, Add(c, m));
  }

  /** Skipping leaves the slots beyond those skipped. */
  lemma SkipSameAt(b: Buffer, m: nat, k: nat)
    requires b.Valid() && m <= k < |b.ring|
    ensures SameAt(b.ring, Skip(b, m).ring, Add(b.deliverNext, k))
  {
    hide ClearSpan, Add;
    var c, n := b.deliverNext, |b.ring|;
    ClearSpanSpec(b.ring, c, m);
    forall j | 0 <= j < m ensures Add(c, j) % n != Add(c, k) % n { OffsetsNotShared(c, j, k, n); }
    assert Skip(b, m).ring[Add(c, k) % n] == b.ring[Add(c, k) % n];
  }

  lemma SameAtReads(ring: seq<Slot>, ring': seq<Slot>, s: u32)
    requires |ring| == |ring'| > 0 && SameAt(ring, ring', s)
    ensures HoldsAt(ring, s) ==> HoldsAt(ring', s) && ring'[s % |ring|] == ring[s % |ring|]
  {
  }

  lemma OffsetsNotShared(c: u32, j: int, k: int, n: int)
    requires RingSize(n) && 0 <= j < n && 0 <= k < n && j != k
    ensures Add(c, j) % n != Add(c, k) % n
  {
    if Add(c, j) % n == Add(c, k) % n { OffsetsDistinct(c, j, k, n); }
  }

  // ---- what draining means ----

  /** The number of packets at the head of the queue that are due. */
  function DueCount(q: seq<Held>, now: int): (m: nat)
    ensures m <= |q|
  {
    if q == [] || now < q[0].outputTime then 0 else 1 + DueCount(q[1..], now)
  }

  /** The events of delivering q in order when `next` was expected first. A
      packet is flagged exactly when it is not the one expected. */
  function Played(q: seq<Held>, next: u32, pending: bool): seq<Deliver> {
    if q == [] then []
    else [ToEvent(q[0], pending || q[0].seqno != next)] + Played(q[1..], Add(q[0].seqno, 1), false)
  }

  /** How many of q are not the one expected. */
  function Jumps(q: seq<Held>, next: u32): nat {
    if q == [] then 0 else (if q[0].seqno != next then 1 else 0) + Jumps(q[1..], Add(q[0].seqno, 1))
  }

  /** r and w are what is left, and the wake-up asked for, once the due prefix of
      b's queue has been played. */
  ghost predicate DrainsTo(b: Buffer, now: int, r: Buffer, w: Wake)
    requires b.Valid() && r.Valid()
  {
    var q := Queue(b);
    var m := DueCount(q, now);
    && r.Windowed()
    && r.events == b.events + Played(q[..m], b.deliverNext, b.pending)
    && Queue(r) == q[m..]
    && r.delivered == b.delivered + m && r.discontinuities == b.discontinuities + Jumps(q[..m], b.deliverNext)
    && w == (if m < |q| then WakeAt(q[m].outputTime) else Idle)
    && (m == 0 ==> r == b)
    && (m > 0 ==> !r.pending && r.deliverNext == Add(q[m - 1].seqno, 1))
  }

  lemma DueCountStep(h: Held, rest: seq<Held>, now: int)
    requires now >= h.outputTime
    ensures var q, m := [h] + rest, DueCount(rest, now);
      && DueCount(q, now) == 1 + m
      && q[..1 + m] == [h] + rest[..m]
      && q[1 + m..] == rest[m..]
      && q[m] == (if m == 0 then h else rest[m - 1])
  {
    assert ([h] + rest)[1..] == rest;
  }

  lemma DrainsAfterEmit(b: Buffer, now: int, r: Buffer, w: Wake)
    requires b.Valid() && r.Valid() && b.Holds(b.deliverNext)
    requires now >= b.Get(b.deliverNext).outputTime
    requires Emit(b).Valid() && DrainsTo(Emit(b), now, r, w)
    ensures DrainsTo(b, now, r, w)
  {
    hide Queue, DueCount, Played, Jumps;
    var h, rest := b.Get(b.deliverNext), Queue(Emit(b));
    QueueAfterEmit(b);
    DueCountStep(h, rest, now);
    PlayedStep(h, rest[..DueCount(rest, now)], b.deliverNext, b.pending);
  }

  lemma PlayedStep(h: Held, rest: seq<Held>, next: u32, pending: bool)
    ensures Played([h] + rest, next, pending)
         == [ToEvent(h, pending || h.seqno != next)] + Played(rest, Add(h.seqno, 1), false)
    ensures Jumps([h] + rest, next) == (if h.seqno != next then 1 else 0) + Jumps(rest, Add(h.seqno, 1))
  {
    assert ([h] + rest)[1..] == rest;
  }

  lemma DrainsAfterSkip(b: Buffer, k: nat, now: int, r: Buffer, w: Wake)
    requires b.Valid() && r.Valid() && b.Windowed()
    requires 1 <= k <= b.Ahead() && b.Holds(Add(b.deliverNext, k))
    requires forall j :: 0 <= j < k ==> !b.Holds(Add(b.deliverNext, j))
    requires now >= b.Get(Add(b.deliverNext, k)).outputTime
    requires Skip(b, k).Valid() && DrainsTo(Skip(b, k), now, r, w)
    ensures DrainsTo(b, now, r, w)
  {
    var c := Skip(b, k);
    QueueAfterSkip(b, k);
    QueueAfterEmit(c);
    var q := Queue(b);
    assert q[0].seqno == c.deliverNext != b.deliverNext;
    assert DueCount(q, now) > 0;
  }

  /** With a hole at the cursor the queue starts at the first packet found. */
  lemma QueueBehindHole(b: Buffer)
    requires b.Valid() && b.Windowed() && !b.Holds(b.deliverNext)
    ensures b.Ahead() <= 0 ==> Queue(b) == []
    ensures b.Ahead() > 0 ==>
      var k := Find(b, 1, b.Ahead());
      && (forall j :: 0 <= j < k ==> !b.Holds(Add(b.deliverNext, j)))
      && (k > b.Ahead() ==> Queue(b) == [])
      && (k <= b.Ahead() ==> Queue(b) != [] && Queue(b)[0] == b.Get(Add(b.deliverNext, k)))
  {
    hide Find, Fwd;
    assert Add(b.deliverNext, 0) == b.deliverNext;
    var k := if b.Ahead() > 0 then Find(b, 1, b.Ahead()) else b.Ahead() + 1;
    SpanSplit(b.ring, b.deliverNext, 0, k, b.Ahead() + 1);
    SpanOfHoles(b.ring, b.deliverNext, 0, k);
  }

  lemma DrainsNothing(b: Buffer, now: int)
    requires b.Valid() && b.Windowed() && DueCount(Queue(b), now) == 0
    ensures DrainsTo(b, now, b, if Queue(b) == [] then Idle else WakeAt(Queue(b)[0].outputTime))
  {
    assert b.events + [] == b.events && Queue(b)[..0] == [] && Queue(b)[0..] == Queue(b);
  }

  /** Under the window assumption a drain delivers exactly the due prefix of the
      ordered queue, leaves the rest, and asks to be woken for its head. */
  lemma {:induction false} DrainPlaysDuePrefix(b: Buffer, now: int)
    requires b.Valid() && b.Windowed()
    ensures DrainsTo(b, now, Drain(b, now).0, Drain(b, now).1)
    decreases b.Ahead() + 1
  {
    var (r, w) := Drain(b, now);
    if b.Holds(b.deliverNext) {
      QueueAfterEmit(b);
      if now >= b.Get(b.deliverNext).outputTime {
        DrainPlaysDuePrefix(Emit(b), now);
        DrainsAfterEmit(b, now, r, w);
      } else {
        DrainsNothing(b, now);
      }
    } else {
      QueueBehindHole(b);
      if b.Ahead() > 0 && Find(b, 1, b.Ahead()) <= b.Ahead() && now >= Queue(b)[0].outputTime {
        var k := Find(b, 1, b.Ahead());
        SkipValid(b, k);
        DrainPlaysDuePrefix(Skip(b, k), now);
        DrainsAfterSkip(b, k, now, r, w);
      } else {
        DrainsNothing(b, now);
      }
    }
  }

  // ---- what inserting means ----

  /** Insertion into an ordered queue; an earlier copy of the same sequence is
      replaced. */
  function SortedInsert(q: seq<Held>, cursor: u32, h: Held): seq<Held> {
    if q == [] || Fwd(cursor, h.seqno) < Fwd(cursor, q[0].seqno) then [h] + q
    else if h.seqno == q[0].seqno then [h] + q[1..]
    else [q[0]] + SortedInsert(q[1..], cursor, h)
  }

  lemma {:induction false} SortedInsertBetween(x: seq<Held>, mid: seq<Held>, y: seq<Held>, c: u32, h: Held)
    requires forall i :: 0 <= i < |x| ==> Fwd(c, x[i].seqno) < Fwd(c, h.seqno)
    requires forall i :: 0 <= i < |y| ==> Fwd(c, h.seqno) < Fwd(c, y[i].seqno)
    requires mid == [] || (|mid| == 1 && mid[0].seqno == h.seqno)
    ensures SortedInsert(x + mid + y, c, h) == x + [h] + y
  {
    hide SortedInsert, Fwd;
    if x == [] {
      assert x + mid + y == mid + y && x + [h] + y == [h] + y;
      SortedInsertFirst(mid, y, c, h);
    } else {
      var rest := x[1..];
      SortedInsertBetween(rest, mid, y, c, h);
      SortedInsertLater(x[0], rest + mid + y, c, h);
      assert x + mid + y == [x[0]] + (rest + mid + y) && x + [h] + y == [x[0]] + (rest + [h] + y);
    }
  }

  lemma SortedInsertFirst(mid: seq<Held>, y: seq<Held>, c: u32, h: Held)
    requires forall i :: 0 <= i < |y| ==> Fwd(c, h.seqno) < Fwd(c, y[i].seqno)
    requires mid == [] || (|mid| == 1 && mid[0].seqno == h.seqno)
    ensures SortedInsert(mid + y, c, h) == [h] + y
  {
    hide Fwd;
    if mid == [] { assert mid + y == y; } else { assert (mid + y)[1..] == y && (mid + y)[0] == mid[0]; }
  }

  lemma SortedInsertLater(first: Held, q: seq<Held>, c: u32, h: Held)
    requires Fwd(c, first.seqno) < Fwd(c, h.seqno)
    ensures SortedInsert([first] + q, c, h) == [first] + SortedInsert(q, c, h)
  {
    hide Fwd;
    assert ([first] + q)[1..] == q;
  }

  /** Around offset f the queue is what precedes it, what is there, what follows. */
  lemma QueueAround(b: Buffer, f: nat, top: nat)
    requires b.Valid() && b.Ahead() < top <= SPACE && f < top
    ensures var c := b.deliverNext;
      Queue(b) == Span(b.ring, c, 0, f)
                + (if b.Holds(Add(c, f)) then [b.Get(Add(c, f))] else [])
                + Span(b.ring, c, f + 1, top)
  {
    SpanBeyond(b, top);
    SpanSplit(b.ring, b.deliverNext, 0, f, top);
  }

  /** Under the window assumption inserting h puts it between what precedes it and
      what follows it, in place of a packet of its own sequence if there was one. */
  lemma InsertSplits(b: Buffer, h: Held) returns (x: seq<Held>, y: seq<Held>)
    requires b.Valid() && !Less(h.seqno, b.deliverNext)
    requires b.Windowed() && Fwd(b.deliverNext, h.seqno) < |b.ring|
    ensures Insert(b, h).Valid() && Insert(b, h).Windowed()
    ensures Queue(b) == x + (if b.Holds(h.seqno) then [b.Get(h.seqno)] else []) + y
    ensures Queue(Insert(b, h)) == x + [h] + y
    ensures forall i :: 0 <= i < |x| ==> Fwd(b.deliverNext, x[i].seqno) < Fwd(b.deliverNext, h.seqno)
    ensures forall i :: 0 <= i < |y| ==> Fwd(b.deliverNext, h.seqno) < Fwd(b.deliverNext, y[i].seqno)
  {
    InsertValid(b, h);
    var c, f := b.deliverNext, Fwd(b.deliverNext, h.seqno);
    var r := Insert(b, h);
    var top := r.Ahead() + 1;
    assert Add(c, f) == h.seqno;
    QueueAround(b, f, top);
    QueueAround(r, f, top);
    InsertLeavesRest(b, h, 0, f);
    InsertLeavesRest(b, h, f + 1, top);
    SpanSorted(b.ring, c, 0, f);
    SpanSorted(b.ring, c, f + 1, top);
    x, y := Span(b.ring, c, 0, f), Span(b.ring, c, f + 1, top);
  }

  /** Under the window assumption inserting into the ring is a sorted insert. */
  lemma QueueAfterInsert(b: Buffer, h: Held)
    requires b.Valid() && !Less(h.seqno, b.deliverNext)
    requires b.Windowed() && Fwd(b.deliverNext, h.seqno) < |b.ring|
    ensures Insert(b, h).Valid() && Insert(b, h).Windowed()
    ensures Queue(Insert(b, h)) == SortedInsert(Queue(b), b.deliverNext, h)
    ensures |Queue(Insert(b, h))| + Insert(b, h).overwritten == |Queue(b)| + b.overwritten + 1
  {
    var x, y := InsertSplits(b, h);
    SlotIsOwn(b, h.seqno);
    SortedInsertBetween(x, if b.Holds(h.seqno) then [b.Get(h.seqno)] else [], y, b.deliverNext, h);
  }

  lemma InsertLeavesRest(b: Buffer, h: Held, k: nat, top: nat)
    requires b.Valid() && k <= top <= |b.ring|
    requires var f := Fwd(b.deliverNext, h.seqno); f < |b.ring| && !(k <= f < top)
    ensures Span(Insert(b, h).ring, b.deliverNext, k, top) == Span(b.ring, b.deliverNext, k, top)
  {
    var c, f, n := b.deliverNext, Fwd(b.deliverNext, h.seqno), |b.ring|;
    var ring' := Insert(b, h).ring;
    assert Add(c, f) == h.seqno && Add(c, 0) == c;
    forall j | k <= j < top ensures ring'[Add(c, j) % n] == b.ring[Add(c, j) % n] {
      OffsetsNotShared(c, j, f, n);
    }
    SpanShift(b.ring, ring', c, 0, k, top);
  }

  lemma SpanBeyond(b: Buffer, top: nat)
    requires b.Valid() && b.Ahead() + 1 <= top <= SPACE
    ensures Queue(b) == Span(b.ring, b.deliverNext, 0, top)
  {
    var m := b.Ahead() + 1;
    SpanSplit(b.ring, b.deliverNext, 0, m, top);
    forall j | m <= j < top ensures !b.Holds(Add(b.deliverNext, j)) {
      assert Fwd(b.deliverNext, Add(b.deliverNext, j)) == j;
    }
    SpanOfHoles(b.ring, b.deliverNext, m, top);
  }

  /** In the window a slot is filled exactly when it holds its own sequence. */
  lemma SlotIsOwn(b: Buffer, s: u32)
    requires b.Valid() && b.Windowed() && Fwd(b.deliverNext, s) < |b.ring|
    ensures b.ring[s % |b.ring|].Filled? <==> b.Holds(s)
  {
    var i := s % |b.ring|;
    if b.ring[i].Filled? {
      var t := b.ring[i].held.seqno;
      assert Add(b.deliverNext, Fwd(b.deliverNext, s)) == s && Add(b.deliverNext, Fwd(b.deliverNext, t)) == t;
      OffsetsDistinct(b.deliverNext, Fwd(b.deliverNext, s), Fwd(b.deliverNext, t), |b.ring|);
    }
  }

  // ---- what is buffered, by place in the queue ----

  lemma QueueIndex(b: Buffer, s: u32) returns (i: nat)
    requires b.Valid() && b.Holds(s)
    ensures i < |Queue(b)| && Queue(b)[i].seqno == s
  {
    QueueListsRing(b);
    assert b.ring[s % |b.ring|].held in Queue(b);
    i :| 0 <= i < |Queue(b)| && Queue(b)[i] == b.Get(s);
  }

  lemma QueueHolds(b: Buffer, i: nat)
    requires b.Valid() && i < |Queue(b)|
    ensures b.Holds(Queue(b)[i].seqno)
  {
    QueueListsRing(b);
  }

  lemma QueueOrder(b: Buffer, i: nat, j: nat)
    requires b.Valid() && i <= j < |Queue(b)|
    ensures Fwd(b.deliverNext, Queue(b)[i].seqno) <= Fwd(b.deliverNext, Queue(b)[j].seqno) <= b.Ahead()
  {
    QueueListsRing(b);
  }

  /** In the window an insert drops no packet of another sequence. */
  lemma InsertKeeps(b: Buffer, h: Held, s: u32)
    requires b.Valid() && b.Windowed() && !Less(h.seqno, b.deliverNext)
    requires Fwd(b.deliverNext, h.seqno) < |b.ring| && b.Holds(s)
    ensures Insert(b, h).Holds(s)
  {
    if h.seqno % |b.ring| == s % |b.ring| { SlotIsOwn(b, h.seqno); }
  }
}
