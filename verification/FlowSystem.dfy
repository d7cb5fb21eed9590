/** A sender and a receiver joined by a network that may lose, duplicate, delay and
    reorder anything. Media arriving is any packet the sender ever emitted, any
    number of times; feedback arriving at either end, and every instant, is
    arbitrary. What is delivered is an in-order selection of what was pushed. */
module FlowSystem {
  import opened Serial
  import opened FlowTypes
  import opened PlayoutBuffer
  import opened ReceiverSpec
  import opened ReceiverProps
  import Recovery
  import Snd = SenderSpec

  /** What the application pushed. */
  datatype Item = Item(sourceTime: u64, payload: Bytes, frag: FragRole)

  datatype System = System(base: u32, snd: Snd.SenderState, rcv: Core, pushed: seq<Item>)

  datatype Action =
    | PushApp(now: int, payload: Bytes, frag: FragRole, sourceTime: Option<u64>)
    | SenderFeedback(now: int, fb: Feedback)
    | SenderTimer(now: int, id: TimerId)
    | MediaArrives(now: int, path: int, k: nat, shortSeq: bool, virtSrcPort: int, virtDstPort: int)
    | ReceiverTimer(now: int, id: TimerId, rescaled: int)
    | ReceiverTick(now: int)
    | ReceiverFeedback(now: int, fb: Feedback)

  /** The k-th output of the sender as the receiving codec hands it over. */
  function Arriving(sys: System, a: Action): MediaPacket
    requires a.MediaArrives? && a.k < |sys.snd.outputs| && sys.snd.outputs[a.k].SendMedia?
  {
    sys.snd.outputs[a.k].pkt.(shortSeq := a.shortSeq, virtSrcPort := a.virtSrcPort, virtDstPort := a.virtDstPort)
  }

  predicate WellFormed(sys: System) {
    RingSize(|sys.snd.ring|) && Valid(sys.rcv)
  }

  /** The call an action makes on the receiver, if it makes one. */
  function ReceiverOp(sys: System, a: Action): Option<Op> {
    match a
    case MediaArrives(now, path, k, _, _, _) =>
      if k < |sys.snd.outputs| && sys.snd.outputs[k].SendMedia? then Some(OpFeed(now, path, Arriving(sys, a))) else None
    case ReceiverTimer(now, id, rescaled) => Some(OpTimer(now, id, rescaled))
    case ReceiverTick(now) => Some(OpTick(now))
    case ReceiverFeedback(now, fb) => Some(OpFeedback(now, fb))
    case _ => None
  }

  function Act(sys: System, a: Action): System
    requires WellFormed(sys)
  {
    match a
    case PushApp(now, payload, frag, sourceTime) =>
      var t := if sourceTime.Some? then sourceTime.value else NtpFromTimestamp(now);
      sys.(snd := Snd.Push(sys.snd, now, payload, frag, None, sourceTime),
           pushed := sys.pushed + [Item(t, payload, frag)])
    case SenderFeedback(now, fb) => sys.(snd := Snd.FeedFeedback(sys.snd, now, fb))
    case SenderTimer(now, id) => sys.(snd := Snd.HandleTimer(sys.snd, now, id))
    case _ =>
      var op := ReceiverOp(sys, a);
      if op.Some? then sys.(rcv := Step(sys.rcv, op.value)) else sys
  }

  // ---- genuine packets ----

  /** s is the sequence of a pushed item, and that item is (t, payload, frag). */
  predicate Matches(base: u32, pushed: seq<Item>, s: u32, t: u64, payload: Bytes, frag: FragRole) {
    Fwd(base, s) < |pushed| && pushed[Fwd(base, s)] == Item(t, payload, frag)
  }

  predicate GenuinePacket(base: u32, pushed: seq<Item>, ssrc: u32, p: MediaPacket) {
    p.ssrc == ssrc && Matches(base, pushed, p.seqno, p.sourceTime, p.payload, p.frag)
  }

  predicate GenuineOutput(base: u32, pushed: seq<Item>, ssrc: u32, o: Output) {
    o.SendMedia? ==> GenuinePacket(base, pushed, ssrc, o.pkt)
  }

  predicate GenuineSlot(base: u32, pushed: seq<Item>, sl: Snd.HistorySlot) {
    sl.Sent? ==> Matches(base, pushed, sl.seqno, sl.sourceTime, sl.payload, sl.frag)
  }

  predicate GenuineHeld(base: u32, pushed: seq<Item>, s: Slot) {
    s.Filled? ==> Matches(base, pushed, s.held.seqno, s.held.sourceTime, s.held.payload, s.held.frag)
  }

  predicate SenderOk(snd: Snd.SenderState, base: u32, pushed: seq<Item>) {
    && RingSize(|snd.ring|)
    && |pushed| <= HALF
    && snd.nextSeq == Add(base, |pushed|)
    && (forall i :: 0 <= i < |snd.ring| ==> GenuineSlot(base, pushed, snd.ring[i]))
    && (forall k :: 0 <= k < |snd.outputs| ==> GenuineOutput(base, pushed, snd.ssrc, snd.outputs[k]))
  }

  lemma PushGenuine(snd: Snd.SenderState, base: u32, pushed: seq<Item>, now: int, payload: Bytes, frag: FragRole,
                    sourceTime: Option<u64>)
    requires SenderOk(snd, base, pushed) && |pushed| < HALF
    ensures var t := if sourceTime.Some? then sourceTime.value else NtpFromTimestamp(now);
      var r := Snd.Push(snd, now, payload, frag, None, sourceTime);
      SenderOk(r, base, pushed + [Item(t, payload, frag)]) && r.ssrc == snd.ssrc
  {
    hide NtpFromTimestamp;
    var t := if sourceTime.Some? then sourceTime.value else NtpFromTimestamp(now);
    var pushed' := pushed + [Item(t, payload, frag)];
    assert Fwd(base, snd.nextSeq) == |pushed|;
    assert forall i :: 0 <= i < |snd.ring| ==> GenuineSlot(base, pushed', snd.ring[i]);
    assert forall k :: 0 <= k < |snd.outputs| ==> GenuineOutput(base, pushed', snd.ssrc, snd.outputs[k]);
  }

  lemma ServiceGenuine(snd: Snd.SenderState, base: u32, pushed: seq<Item>, now: int, missing: u32)
    requires SenderOk(snd, base, pushed)
    ensures var r := Snd.Service(snd, now, missing);
      SenderOk(r, base, pushed) && r.ssrc == snd.ssrc
  {
    assert GenuineSlot(base, pushed, snd.ring[missing % |snd.ring|]);
  }

  lemma {:induction false} ServiceFromGenuine(snd: Snd.SenderState, base: u32, pushed: seq<Item>, now: int,
                                              missing: seq<u32>, i: nat, emitted: nat)
    requires SenderOk(snd, base, pushed) && i <= |missing|
    ensures var r := Snd.ServiceFrom(snd, now, missing, i, emitted);
      SenderOk(r, base, pushed) && r.ssrc == snd.ssrc
    decreases |missing| - i
  {
    if i < |missing| {
      var s' := Snd.Service(snd, now, missing[i]);
      ServiceGenuine(snd, base, pushed, now, missing[i]);
      ServiceFromGenuine(s', base, pushed, now, missing, i + 1, emitted);
      ServiceFromGenuine(s', base, pushed, now, missing, i + 1, emitted + 1);
    }
  }

  lemma FeedbackGenuine(snd: Snd.SenderState, base: u32, pushed: seq<Item>, now: int, fb: Feedback)
    requires SenderOk(snd, base, pushed)
    ensures var r := Snd.FeedFeedback(snd, now, fb);
      SenderOk(r, base, pushed) && r.ssrc == snd.ssrc
  {
    if fb.NackRequest? {
      ServiceFromGenuine(snd.(dataBW := snd.dataBW.Feed(now, 0), retryBW := snd.retryBW.Feed(now, 0)),
                         base, pushed, now, fb.missing, 0, 0);
    }
  }

  // ---- in-order delivery ----

  /** The position expected when i events have been delivered. */
  function Expected(es: seq<Deliver>, base: u32, anchor: int, i: nat): int
    requires i <= |es|
  {
    if i == 0 then anchor else Fwd(base, es[i - 1].seqno) + 1
  }

  /** Event i is a pushed item, not before the one expected, and flagged exactly
      when it is not the one expected. */
  predicate EventOk(es: seq<Deliver>, base: u32, pushed: seq<Item>, anchor: int, i: nat)
    requires i < |es|
  {
    && Matches(base, pushed, es[i].seqno, es[i].sourceTime, es[i].payload, es[i].frag)
    && Expected(es, base, anchor, i) <= Fwd(base, es[i].seqno)
    && (es[i].discontinuity <==> Fwd(base, es[i].seqno) != Expected(es, base, anchor, i))
  }

  predicate Tracks(b: Buffer, base: u32, pushed: seq<Item>) {
    var c := Fwd(base, b.deliverNext);
    var anchor := c - b.delivered - b.lost;
    var e := Expected(b.events, base, anchor, |b.events|);
    && b.Valid()
    && |pushed| <= HALF
    && c <= |pushed| && c + b.Ahead() < |pushed|
    && (forall i :: 0 <= i < |b.ring| ==> GenuineHeld(base, pushed, b.ring[i]))
    && anchor >= 0
    && |b.events| == b.delivered
    && (forall i :: 0 <= i < |b.events| ==> EventOk(b.events, base, pushed, anchor, i))
    && e <= c && (b.pending <==> c != e)
  }

  lemma EmitTracks(b: Buffer, base: u32, pushed: seq<Item>)
    requires Tracks(b, base, pushed) && b.Holds(b.deliverNext)
    ensures Tracks(Emit(b), base, pushed)
    ensures Anchor(Emit(b), base) == Anchor(b, base)
  {
    EmitValid(b);
    var r := Emit(b);
    var c := Fwd(base, b.deliverNext);
    assert GenuineHeld(base, pushed, b.ring[b.deliverNext % |b.ring|]);
    assert Fwd(base, r.deliverNext) == c + 1;
    var anchor := c - b.delivered - b.lost;
    forall i | 0 <= i < |r.events| ensures EventOk(r.events, base, pushed, anchor, i) {
      if i < |b.events| { assert EventOk(b.events, base, pushed, anchor, i); }
    }
  }

  function Anchor(b: Buffer, base: u32): int { Fwd(base, b.deliverNext) - b.delivered - b.lost }

  lemma SkipTracks(b: Buffer, base: u32, pushed: seq<Item>, k: nat)
    requires Tracks(b, base, pushed) && 1 <= k <= b.Ahead()
    ensures Tracks(Skip(b, k), base, pushed)
    ensures Anchor(Skip(b, k), base) == Anchor(b, base)
  {
    SkipValid(b, k);
    ClearSpanSpec(b.ring, b.deliverNext, k);
    var r := Skip(b, k);
    assert Fwd(base, r.deliverNext) == Fwd(base, b.deliverNext) + k;
    forall i | 0 <= i < |r.ring| ensures GenuineHeld(base, pushed, r.ring[i]) {
      assert GenuineHeld(base, pushed, b.ring[i]);
    }
  }

  lemma {:induction false} DrainTracks(b: Buffer, base: u32, pushed: seq<Item>, now: int)
    requires Tracks(b, base, pushed)
    ensures Tracks(Drain(b, now).0, base, pushed)
    ensures Anchor(Drain(b, now).0, base) == Anchor(b, base)
    decreases b.Ahead() + 1
  {
    hide Tracks, Anchor;
    assert b.Valid() by { TracksValid(b, base, pushed); }
    if b.Holds(b.deliverNext) {
      if now >= b.Get(b.deliverNext).outputTime {
        EmitTracks(b, base, pushed);
        EmitValid(b);
        DrainTracks(Emit(b), base, pushed, now);
      }
    } else if b.Ahead() > 0 {
      var limit := Min(b.Ahead(), |b.ring|);
      var found := Find(b, 1, limit);
      var k := if found > limit then |b.ring| else found;
      if if found > limit then b.Ahead() > |b.ring| else now >= b.Get(Add(b.deliverNext, k)).outputTime {
        SkipTracks(b, base, pushed, k);
        SkipValid(b, k);
        DrainTracks(Skip(b, k), base, pushed, now);
      }
    }
  }

  lemma TracksValid(b: Buffer, base: u32, pushed: seq<Item>)
    requires Tracks(b, base, pushed)
    ensures b.Valid()
  {
  }

  lemma InsertTracks(b: Buffer, base: u32, pushed: seq<Item>, h: Held)
    requires Tracks(b, base, pushed) && !Less(h.seqno, b.deliverNext)
    requires Matches(base, pushed, h.seqno, h.sourceTime, h.payload, h.frag)
    ensures Tracks(Insert(b, h), base, pushed)
    ensures Anchor(Insert(b, h), base) == Anchor(b, base)
  {
    InsertValid(b, h);
    assert Fwd(b.deliverNext, h.seqno) == Fwd(base, h.seqno) - Fwd(base, b.deliverNext);
  }

  // ---- the receiver fed by genuine packets ----

  predicate ReceiverOk(c: Core, base: u32, pushed: seq<Item>, ssrc: u32) {
    && Valid(c)
    && (if c.started then c.ssrc == ssrc && Tracks(c.buf, base, pushed)
        else c.buf.events == [] && !c.buf.pending && c.buf.delivered == 0 && c.buf.lost == 0)
  }

  lemma StartTracks(c: Core, base: u32, pushed: seq<Item>, now: int, path: int, pkt: MediaPacket)
    requires ReceiverOk(c, base, pushed, pkt.ssrc) && !c.started && |pushed| <= HALF
    requires Matches(base, pushed, pkt.seqno, pkt.sourceTime, pkt.payload, pkt.frag)
    ensures ReceiverOk(Start(c, now, path, pkt), base, pushed, pkt.ssrc)
  {
    StartValid(c, now, path, pkt);
  }

  lemma FeedOk(c: Core, base: u32, pushed: seq<Item>, now: int, path: int, pkt: MediaPacket)
    requires ReceiverOk(c, base, pushed, pkt.ssrc) && |pushed| <= HALF
    requires Matches(base, pushed, pkt.seqno, pkt.sourceTime, pkt.payload, pkt.frag)
    ensures ReceiverOk(FeedCore(c, now, path, pkt), base, pushed, pkt.ssrc)
    ensures c.started ==>
      var r := FeedCore(c, now, path, pkt);
      r.started && r.buf.deliverNext == c.buf.deliverNext && Anchor(r.buf, base) == Anchor(c.buf, base)
  {
    hide Tracks, Admit, Start;
    FeedValid(c, now, path, pkt);
    var c1 := Prepare(c, now, pkt);
    assert c1.buf == c.buf && c1.started == c.started && c1.ssrc == c.ssrc;
    PrepareValid(c, now, pkt);
    if c1.started {
      var (clk, packetTime) := Track(c1.clk, c1.x, now, pkt);
      var c2 := c1.(clk := clk);
      match Judge(c2, now, pkt, packetTime)
      case Accept(o) =>
        AdmitInserts(c2, now, path, pkt, packetTime, o);
        AdmitKeepsFlow(c2, now, path, pkt, packetTime, o);
        InsertTracks(c2.buf, base, pushed, Hold(pkt, now, packetTime, c2.x.recoveryBuffer));
      case _ =>
    } else if !pkt.retransmit {
      StartTracks(c1, base, pushed, now, path, pkt);
    }
  }

  lemma AdmitKeepsFlow(c: Core, now: int, path: int, pkt: MediaPacket, packetTime: int, outOfOrder: bool)
    requires c.buf.Valid()
    ensures var r := Admit(c, now, path, pkt, packetTime, outOfOrder);
      r.started == c.started && r.ssrc == c.ssrc && r.clk == c.clk
  {
  }

  lemma DeliverOk(c: Core, base: u32, pushed: seq<Item>, ssrc: u32, now: int)
    requires ReceiverOk(c, base, pushed, ssrc)
    ensures var r := DeliverDue(c, now);
      && (if c.started then r.started && r.ssrc == ssrc && Tracks(r.buf, base, pushed) else r == c)
      && Anchor(r.buf, base) == Anchor(c.buf, base)
  {
    hide Tracks;
    if c.started { DrainTracks(c.buf, base, pushed, now); }
  }

  lemma TimerOk(c: Core, base: u32, pushed: seq<Item>, ssrc: u32, now: int, id: TimerId, rescaled: int)
    requires ReceiverOk(c, base, pushed, ssrc)
    ensures ReceiverOk(HandleTimer(c, now, id, rescaled), base, pushed, ssrc)
    ensures Anchor(HandleTimer(c, now, id, rescaled).buf, base) == Anchor(c.buf, base)
    ensures HandleTimer(c, now, id, rescaled).started == c.started
  {
    hide Tracks;
    TimerValid(c, now, id, rescaled);
    DeliverOk(c.(playoutArmed := false), base, pushed, ssrc, now);
  }

  lemma TickOk(c: Core, base: u32, pushed: seq<Item>, ssrc: u32, now: int)
    requires ReceiverOk(c, base, pushed, ssrc)
    ensures ReceiverOk(Tick(c, now), base, pushed, ssrc)
    ensures Anchor(Tick(c, now).buf, base) == Anchor(c.buf, base) && Tick(c, now).started == c.started
  {
    hide Tracks;
    TickValid(c, now);
    DeliverOk(c, base, pushed, ssrc, now);
  }

  // ---- every run ----

  predicate Ok(sys: System) {
    SenderOk(sys.snd, sys.base, sys.pushed) && ReceiverOk(sys.rcv, sys.base, sys.pushed, sys.snd.ssrc)
  }

  lemma PushedGrows(c: Core, base: u32, pushed: seq<Item>, x: Item, ssrc: u32)
    requires ReceiverOk(c, base, pushed, ssrc) && |pushed| < HALF
    ensures ReceiverOk(c, base, pushed + [x], ssrc)
  {
    if c.started {
      var b, anchor := c.buf, Anchor(c.buf, base);
      forall i | 0 <= i < |b.events| ensures EventOk(b.events, base, pushed + [x], anchor, i) {
        assert EventOk(b.events, base, pushed, anchor, i);
      }
      forall i | 0 <= i < |b.ring| ensures GenuineHeld(base, pushed + [x], b.ring[i]) {
        assert GenuineHeld(base, pushed, b.ring[i]);
      }
    }
  }

  lemma ActOk(sys: System, a: Action)
    requires Ok(sys) && (a.PushApp? ==> |sys.pushed| < HALF)
    ensures Ok(Act(sys, a))
    ensures Act(sys, a).base == sys.base && sys.pushed <= Act(sys, a).pushed
    ensures |Act(sys, a).pushed| == |sys.pushed| + (if a.PushApp? then 1 else 0)
    ensures sys.rcv.started ==>
      Act(sys, a).rcv.started && Anchor(Act(sys, a).rcv.buf, sys.base) == Anchor(sys.rcv.buf, sys.base)
  {
    hide Tracks, Valid, FeedCore, HandleTimer, Tick, Snd.Push, Snd.FeedFeedback, NtpFromTimestamp;
    assert Valid(sys.rcv);
    match a
    case PushApp(now, payload, frag, sourceTime) =>
      PushGenuine(sys.snd, sys.base, sys.pushed, now, payload, frag, sourceTime);
      var t := if sourceTime.Some? then sourceTime.value else NtpFromTimestamp(now);
      PushedGrows(sys.rcv, sys.base, sys.pushed, Item(t, payload, frag), sys.snd.ssrc);
    case SenderFeedback(now, fb) => FeedbackGenuine(sys.snd, sys.base, sys.pushed, now, fb);
    case SenderTimer(now, id) =>
    case MediaArrives(now, path, k, _, _, _) =>
      if k < |sys.snd.outputs| && sys.snd.outputs[k].SendMedia? {
        assert GenuineOutput(sys.base, sys.pushed, sys.snd.ssrc, sys.snd.outputs[k]);
        FeedOk(sys.rcv, sys.base, sys.pushed, now, path, Arriving(sys, a));
      }
    case ReceiverTimer(now, id, rescaled) => TimerOk(sys.rcv, sys.base, sys.pushed, sys.snd.ssrc, now, id, rescaled);
    case ReceiverTick(now) => TickOk(sys.rcv, sys.base, sys.pushed, sys.snd.ssrc, now);
    case ReceiverFeedback(now, fb) => FeedbackOk(sys.rcv, sys.base, sys.pushed, sys.snd.ssrc, now, fb);
  }

  lemma FeedbackOk(c: Core, base: u32, pushed: seq<Item>, ssrc: u32, now: int, fb: Feedback)
    requires ReceiverOk(c, base, pushed, ssrc)
    ensures ReceiverOk(FeedFeedback(c, now, fb), base, pushed, ssrc)
    ensures FeedFeedback(c, now, fb).buf == c.buf && FeedFeedback(c, now, fb).started == c.started
  {
  }

  function Pushes(acts: seq<Action>): nat {
    if acts == [] then 0 else Pushes(Most(acts)) + (if Last(acts).PushApp? then 1 else 0)
  }

  /** The system after a run. */
  function RunAll(sys: System, acts: seq<Action>): (r: System)
    requires Ok(sys) && |sys.pushed| + Pushes(acts) <= HALF
    ensures Ok(r) && r.base == sys.base && |r.pushed| == |sys.pushed| + Pushes(acts)
  {
    if acts == [] then sys else
    hide Act;
    ActOk(RunAll(sys, Most(acts)), Last(acts));
    Act(RunAll(sys, Most(acts)), Last(acts))
  }

  /** The system before anything is sent. */
  predicate Initial(sys: System) {
    && RingSize(|sys.snd.ring|) && (forall i :: 0 <= i < |sys.snd.ring| ==> sys.snd.ring[i].Vacant?)
    && sys.snd.outputs == [] && sys.snd.nextSeq == sys.base && sys.pushed == []
    && Valid(sys.rcv) && !sys.rcv.started && sys.rcv.buf.events == [] && !sys.rcv.buf.pending
    && sys.rcv.buf.delivered == 0 && sys.rcv.buf.lost == 0
  }

  lemma InitialOk(sys: System)
    requires Initial(sys)
    ensures Ok(sys)
  {
  }

  /** A new sender and a new receiver, not yet talking. */
  function NewSystem(cfg: Config, est: Estimator, recoveryBuffer: int, ringSize: int, ssrc: u32, base: u32): System
    requires RingSize(ringSize)
  {
    System(base, Snd.NewSender(cfg, est, ringSize, ssrc, base), NewCore(cfg, est, recoveryBuffer, ringSize), [])
  }

  lemma NewSystemInitial(cfg: Config, est: Estimator, recoveryBuffer: int, ringSize: int, ssrc: u32, base: u32)
    requires RingSize(ringSize) && cfg.nackSeqsPerSec >= 0.0 && cfg.nackTokenBurst >= 0.0
    ensures Initial(NewSystem(cfg, est, recoveryBuffer, ringSize, ssrc, base))
  {
    NewValid(cfg, est, recoveryBuffer, ringSize);
  }

  /** Position in the pushed stream of the i-th delivered event. */
  function Position(sys: System, i: nat): int
    requires i < |sys.rcv.buf.events|
  {
    Fwd(sys.base, sys.rcv.buf.events[i].seqno)
  }

  lemma {:induction false} Increasing(sys: System, i: nat, j: nat)
    requires Ok(sys) && i < j < |sys.rcv.buf.events|
    ensures Position(sys, i) < Position(sys, j)
    decreases j
  {
    EventFacts(sys, j);
    if i + 1 < j { Increasing(sys, i, j - 1); }
  }

  /** Event i carries exactly the item pushed at its position. */
  predicate CarriesItem(sys: System, i: nat)
    requires i < |sys.rcv.buf.events|
  {
    var e := sys.rcv.buf.events[i];
    Position(sys, i) < |sys.pushed| && sys.pushed[Position(sys, i)] == Item(e.sourceTime, e.payload, e.frag)
  }

  /** Event i is flagged exactly when it does not follow the one before it. */
  predicate FlagsGap(sys: System, i: nat)
    requires 1 <= i < |sys.rcv.buf.events|
  {
    sys.rcv.buf.events[i].discontinuity <==> Position(sys, i) != Position(sys, i - 1) + 1
  }

  /** The delivered events are a strictly increasing selection of the pushed items. */
  predicate DeliversInOrder(sys: System) {
    var n := |sys.rcv.buf.events|;
    && (forall i :: 0 <= i < n ==> CarriesItem(sys, i))
    && (forall i, j :: 0 <= i < j < n ==> Position(sys, i) < Position(sys, j))
    && (forall i :: 1 <= i < n ==> FlagsGap(sys, i))
  }

  lemma EventFacts(sys: System, i: nat)
    requires Ok(sys) && i < |sys.rcv.buf.events|
    ensures CarriesItem(sys, i) && (i > 0 ==> FlagsGap(sys, i) && Position(sys, i - 1) < Position(sys, i))
  {
    var b := sys.rcv.buf;
    assert EventOk(b.events, sys.base, sys.pushed, Anchor(b, sys.base), i);
  }

  lemma OkDelivers(sys: System)
    requires Ok(sys)
    ensures DeliversInOrder(sys)
  {
    hide Ok, CarriesItem, FlagsGap;
    var n := |sys.rcv.buf.events|;
    forall i, j | 0 <= i < j < n ensures Position(sys, i) < Position(sys, j) { Increasing(sys, i, j); }
    forall i | 0 <= i < n ensures CarriesItem(sys, i) && (i > 0 ==> FlagsGap(sys, i)) { EventFacts(sys, i); }
  }

  /** End-to-end safety, over every run of up to 2^31 pushes and every network. */
  lemma EndToEnd(sys: System, acts: seq<Action>)
    requires Initial(sys) && Pushes(acts) <= HALF
    ensures Ok(sys) && DeliversInOrder(RunAll(sys, acts))
  {
    InitialOk(sys);
    OkDelivers(RunAll(sys, acts));
  }

  /** Once the receiver has anchored, delivered plus lost is at every moment exactly
      the distance from the anchor to the cursor, which never passes the stream. */
  lemma {:induction false} AnchorFixed(sys: System, acts: seq<Action>)
    requires Ok(sys) && sys.rcv.started && |sys.pushed| + Pushes(acts) <= HALF
    ensures var r := RunAll(sys, acts);
      && r.rcv.started
      && Anchor(r.rcv.buf, r.base) == Anchor(sys.rcv.buf, sys.base)
      && 0 <= Anchor(r.rcv.buf, r.base) <= Fwd(r.base, r.rcv.buf.deliverNext) <= |r.pushed|
      && |r.rcv.buf.events| == r.rcv.buf.delivered
  {
    hide Act;
    if acts != [] {
      AnchorFixed(sys, Most(acts));
      ActOk(RunAll(sys, Most(acts)), Last(acts));
    }
  }
}
