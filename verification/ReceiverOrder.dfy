/** Order and discontinuity at the receiver, for any stream whatever: over any run in
    the window each delivery comes after the one before, and is flagged exactly when
    it neither follows it directly nor opens a flow (internal/flow/receiver.go). */
module ReceiverOrder {
  import opened Serial
  import opened FlowTypes
  import opened PlayoutBuffer
  import opened ReceiverSpec
  import opened ReceiverProps

  /** The call anchors a flow. */
  predicate Begins(c: Core, op: Op) { Anchors(c, op) && !op.pkt.retransmit }

  /** The places among the events at which a run anchored flows. */
  function FlowStarts(c: Core, ops: seq<Op>): set<nat>
    requires Valid(c)
  {
    if ops == [] then {} else
    var before := Run(c, Most(ops));
    FlowStarts(c, Most(ops)) + (if Begins(before, Last(ops)) then {|before.buf.events|} else {})
  }

  /** The i-th event opens a flow and is not flagged; or it comes after the event
      before it, and is flagged exactly when it is not its successor. */
  predicate InOrder(es: seq<Deliver>, starts: set<nat>, i: nat)
    requires i < |es|
  {
    if i in starts then !es[i].discontinuity
    else
      && i > 0
      && Less(es[i - 1].seqno, es[i].seqno)
      && (es[i].discontinuity <==> es[i].seqno != Add(es[i - 1].seqno, 1))
  }

  predicate AllInOrder(es: seq<Deliver>, starts: set<nat>, from: nat) {
    forall i: nat :: from <= i < |es| ==> InOrder(es, starts, i)
  }

  /** What makes the next delivery come in order: a flow that has delivered nothing
      yet still holds its first packet; one that has expects the successor. */
  predicate Poised(b: Buffer, starts: set<nat>, from: nat)
    requires b.Valid()
  {
    var n := |b.events|;
    if n in starts then b.Holds(b.deliverNext) && !b.pending
    else n >= from ==> n > 0 && !b.pending && b.deliverNext == Add(b.events[n - 1].seqno, 1)
  }

  predicate Orderly(c: Core, starts: set<nat>, from: nat)
    requires c.buf.Valid()
  {
    && (forall i :: i in starts ==> i <= |c.buf.events|)
    && AllInOrder(c.buf.events, starts, from)
    && (if c.started then Poised(c.buf, starts, from) else !c.buf.pending)
  }

  // ---- playing the queue ----

  lemma {:induction false} PlayedFlags(q: seq<Held>, next: u32, pending: bool, k: nat)
    requires k < |q|
    ensures var p := Played(q, next, pending);
      && |p| == |q|
      && p[k] == ToEvent(q[k], if k == 0 then pending || q[0].seqno != next else q[k].seqno != Add(q[k - 1].seqno, 1))
    decreases q
  {
    if k == 0 {
      PlayedLength(q, next, pending);
    } else {
      PlayedFlags(q[1..], Add(q[0].seqno, 1), false, k - 1);
    }
  }

  lemma {:induction false} PlayedLength(q: seq<Held>, next: u32, pending: bool)
    ensures |Played(q, next, pending)| == |q|
    decreases q
  {
    if q != [] { PlayedLength(q[1..], Add(q[0].seqno, 1), false); }
  }

  /** Seen from the cursor the queue ascends, and stays within half the space. */
  lemma QueueAscends(b: Buffer, k: nat)
    requires b.Valid() && k < |Queue(b)|
    ensures Fwd(b.deliverNext, Queue(b)[k].seqno) < HALF
    ensures k > 0 ==> Less(Queue(b)[k - 1].seqno, Queue(b)[k].seqno)
  {
    hide Queue, Fwd;
    QueueListsRing(b);
    if k > 0 { LaterIsLess(b.deliverNext, Queue(b)[k - 1].seqno, Queue(b)[k].seqno); }
  }

  lemma LaterIsLess(c: u32, x: u32, y: u32)
    requires Fwd(c, x) < Fwd(c, y) < HALF
    ensures Less(x, y)
  {
  }

  lemma SuccessorIsLess(x: u32, y: u32)
    requires Fwd(Add(x, 1), y) < HALF
    ensures Less(x, y)
  {
  }

  /** A packet at the cursor heads the queue. */
  lemma QueueHead(b: Buffer)
    requires b.Valid() && b.Holds(b.deliverNext)
    ensures Queue(b) != [] && Queue(b)[0].seqno == b.deliverNext
  {
    hide Queue;
    var i := QueueIndex(b, b.deliverNext);
    QueueOrder(b, 0, i);
  }

  /** The k-th packet played is in order after what was delivered before. */
  lemma PlaysInOrder(b: Buffer, starts: set<nat>, from: nat, m: nat, k: nat)
    requires b.Valid() && Poised(b, starts, from) && k < m <= |Queue(b)|
    requires (forall i :: i in starts ==> i <= |b.events|) && from <= |b.events| + k
    ensures var es := b.events + Played(Queue(b)[..m], b.deliverNext, b.pending);
      |es| == |b.events| + m && InOrder(es, starts, |b.events| + k)
  {
    hide Queue, Fwd, Add, Less;
    var q, n := Queue(b)[..m], |b.events|;
    PlayedFlags(q, b.deliverNext, b.pending, k);
    QueueAscends(b, k);
    if k > 0 {
      PlayedFlags(q, b.deliverNext, b.pending, k - 1);
    } else if n in starts {
      QueueHead(b);
    } else {
      SuccessorIsLess(b.events[n - 1].seqno, q[0].seqno);
    }
  }

  lemma DrainOrderly(b: Buffer, now: int, starts: set<nat>, from: nat)
    requires b.Valid() && b.Windowed() && Poised(b, starts, from)
    requires (forall i :: i in starts ==> i <= |b.events|) && AllInOrder(b.events, starts, from)
    ensures var r := Drain(b, now).0;
      && |b.events| <= |r.events| && AllInOrder(r.events, starts, from) && Poised(r, starts, from)
  {
    hide Queue, Drain, InOrder, DueCount, Played;
    DrainPlaysDuePrefix(b, now);
    var q, m, r, n := Queue(b), DueCount(Queue(b), now), Drain(b, now).0, |b.events|;
    PlayedLength(q[..m], b.deliverNext, b.pending);
    forall i: nat | from <= i < |r.events| ensures InOrder(r.events, starts, i) {
      if i < n {
        PrefixInOrder(b.events, r.events, starts, i);
      } else {
        PlaysInOrder(b, starts, from, m, i - n);
      }
    }
    if m > 0 { PlayedFlags(q[..m], b.deliverNext, b.pending, m - 1); }
  }

  lemma PrefixInOrder(es: seq<Deliver>, fs: seq<Deliver>, starts: set<nat>, i: nat)
    requires es <= fs && i < |es| && InOrder(es, starts, i)
    ensures InOrder(fs, starts, i)
  {
  }

  // ---- one call ----

  lemma DeliverOrderly(c: Core, now: int, starts: set<nat>, from: nat)
    requires Valid(c) && c.buf.Windowed() && Orderly(c, starts, from)
    ensures DeliverDue(c, now).buf.Valid() && Orderly(DeliverDue(c, now), starts, from)
  {
    hide Drain, AllInOrder, Poised;
    if c.started { DrainOrderly(c.buf, now, starts, from); }
  }

  lemma BeginOrderly(c: Core, now: int, path: int, pkt: MediaPacket, starts: set<nat>, from: nat)
    requires Valid(c) && Orderly(c, starts, from) && Begins(c, OpFeed(now, path, pkt))
    ensures var r := FeedCore(c, now, path, pkt);
      r.buf.Valid() && Orderly(r, starts + {|c.buf.events|}, from)
  {
    hide Drain, InOrder;
    FeedValid(c, now, path, pkt);
    var c1, starts' := Prepare(c, now, pkt), starts + {|c.buf.events|};
    assert c1.buf.events == c.buf.events && !c1.buf.pending && !c1.started;
    forall i: nat | from <= i < |c.buf.events| ensures InOrder(c.buf.events, starts', i) {
      OtherStart(c.buf.events, starts, |c.buf.events|, i);
    }
  }

  lemma OtherStart(es: seq<Deliver>, starts: set<nat>, n: nat, i: nat)
    requires i < |es| && i != n && InOrder(es, starts, i)
    ensures InOrder(es, starts + {n}, i)
  {
  }

  lemma FeedOrderly(c: Core, now: int, path: int, pkt: MediaPacket, starts: set<nat>, from: nat)
    requires Valid(c) && WakesInTime(c) && InWindow(c, OpFeed(now, path, pkt))
    requires Orderly(c, starts, from) && !Begins(c, OpFeed(now, path, pkt))
    ensures var r := FeedCore(c, now, path, pkt);
      r.buf.Valid() && Orderly(r, starts, from)
  {
    hide Drain, AllInOrder, Admit, Queue;
    FeedValid(c, now, path, pkt);
    var c1 := Prepare(c, now, pkt);
    assert c1.buf == c.buf && c1.started == c.started;
    if c1.started {
      var (clk, packetTime) := Track(c1.clk, c1.x, now, pkt);
      var c2 := c1.(clk := clk);
      match Judge(c2, now, pkt, packetTime)
      case Accept(o) =>
        AdmitInserts(c2, now, path, pkt, packetTime, o);
        AdmitStarted(c2, now, path, pkt, packetTime, o);
        if c.buf.Holds(c.buf.deliverNext) {
          InsertKeeps(c.buf, Hold(pkt, now, packetTime, c.x.recoveryBuffer), c.buf.deliverNext);
        }
      case _ =>
    }
  }

  lemma AdmitStarted(c: Core, now: int, path: int, pkt: MediaPacket, packetTime: int, outOfOrder: bool)
    requires c.buf.Valid()
    ensures Admit(c, now, path, pkt, packetTime, outOfOrder).started == c.started
  {
  }

  lemma StepOrderly(c: Core, op: Op, starts: set<nat>, from: nat)
    requires Valid(c) && WakesInTime(c) && InWindow(c, op) && Orderly(c, starts, from)
    ensures Step(c, op).buf.Valid()
    ensures Orderly(Step(c, op), starts + (if Begins(c, op) then {|c.buf.events|} else {}), from)
  {
    hide FeedCore, DeliverDue, AllInOrder, Poised, InWindow;
    assert starts + {} == starts;
    match op
    case OpFeed(now, path, pkt) =>
      if Begins(c, op) { BeginOrderly(c, now, path, pkt, starts, from); }
      else { FeedOrderly(c, now, path, pkt, starts, from); }
    case OpTimer(now, id, rescaled) => DeliverOrderly(c.(playoutArmed := false), now, starts, from);
    case OpTick(now) => DeliverOrderly(c, now, starts, from);
    case OpFeedback(_, _) =>
  }

  // ---- whole runs ----

  lemma {:induction false} RunOrderly(c: Core, ops: seq<Op>, from: nat)
    requires Valid(c) && WakesInTime(c) && RunInWindow(c, ops) && Orderly(c, {}, from)
    ensures Orderly(Run(c, ops), FlowStarts(c, ops), from)
  {
    hide Step, WakesInTime, InWindow, Orderly, Begins;
    if ops != [] {
      RunOrderly(c, Most(ops), from);
      RunWakes(c, Most(ops));
      StepOrderly(Run(c, Most(ops)), Last(ops), FlowStarts(c, Most(ops)), from);
    }
  }

  /** Over any run in the window, from any state: every event delivered after the
      first comes after the one before it and is flagged exactly when it is not its
      successor, apart from those that open a flow, which are never flagged. */
  lemma RunInOrder(c: Core, ops: seq<Op>)
    requires Valid(c) && WakesInTime(c) && RunInWindow(c, ops) && (!c.started ==> !c.buf.pending)
    ensures AllInOrder(Run(c, ops).buf.events, FlowStarts(c, ops), |c.buf.events| + (if c.started then 1 else 0))
  {
    RunOrderly(c, ops, |c.buf.events| + (if c.started then 1 else 0));
  }

  /** So on one flow already started the flag is the gap, nothing else. */
  lemma {:induction false} NoNewFlow(c: Core, ops: seq<Op>)
    requires Valid(c) && NeverAnchors(c, ops)
    ensures FlowStarts(c, ops) == {}
  {
    if ops != [] { NoNewFlow(c, Most(ops)); }
  }
}
