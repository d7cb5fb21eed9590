/** What every call into the receiver keeps, and what whole runs of calls keep. */
module ReceiverProps {
  import opened Serial
  import opened FlowTypes
  import opened PlayoutBuffer
  import opened ReceiverSpec
  import Recovery

  // ---- the invariant, for any input whatever ----

  predicate Valid(c: Core) {
    && c.buf.Valid()
    && Recovery.Valid(c.arq, c.x.cfg)
    && (!c.started ==> c.buf.NothingBuffered() && c.arq.missing == [])
    && (c.arq.missing != [] ==> c.arq.nackArmed)
  }

  lemma PrepareValid(c: Core, now: int, pkt: MediaPacket)
    requires Valid(c)
    ensures Valid(Prepare(c, now, pkt))
  {
  }

  lemma StartValid(c: Core, now: int, path: int, pkt: MediaPacket)
    requires Valid(c) && !c.started
    ensures Valid(Start(c, now, path, pkt))
  {
  }

  lemma AdmitValid(c: Core, now: int, path: int, pkt: MediaPacket, packetTime: int, outOfOrder: bool)
    requires Valid(c) && c.started && !Less(pkt.seqno, c.buf.deliverNext)
    ensures Valid(Admit(c, now, path, pkt, packetTime, outOfOrder))
  {
    var h := Hold(pkt, now, packetTime, c.x.recoveryBuffer);
    InsertValid(c.buf, h);
    Recovery.MarkMissingValid(c.arq, c.x, Insert(c.buf, h).ring, c.clk.shortSeq, now, path, pkt.seqno, packetTime);
  }

  lemma FeedValid(c: Core, now: int, path: int, pkt: MediaPacket)
    requires Valid(c)
    ensures Valid(FeedCore(c, now, path, pkt))
  {
    PrepareValid(c, now, pkt);
    var c1 := Prepare(c, now, pkt);
    if c1.started {
      var (clk, packetTime) := Track(c1.clk, c1.x, now, pkt);
      var c2 := c1.(clk := clk);
      match Judge(c2, now, pkt, packetTime)
      case Accept(o) => AdmitValid(c2, now, path, pkt, packetTime, o);
      case _ =>
    } else if !pkt.retransmit {
      StartValid(c1, now, path, pkt);
    }
  }

  lemma NackPassValid(c: Core, now: int)
    requires c.buf.Valid() && Recovery.Valid(c.arq, c.x.cfg) && (!c.started ==> c.arq.missing == [])
    ensures var r := NackPass(c, now);
      && Recovery.Valid(r.arq, c.x.cfg)
      && |r.arq.missing| <= |c.arq.missing|
      && r.arq.nackArmed == c.arq.nackArmed
      && r == c.(arq := r.arq, outputs := r.outputs)
  {
    Recovery.ProcessNacksValid(c.arq, c.x, c.buf.ring, now);
  }

  lemma TimerValid(c: Core, now: int, id: TimerId, rescaled: int)
    requires Valid(c)
    ensures Valid(HandleTimer(c, now, id, rescaled))
  {
    if id.TimerNack? { NackPassValid(c.(arq := c.arq.(nackArmed := false)), now); }
  }

  lemma TickValid(c: Core, now: int)
    requires Valid(c)
    ensures Valid(Tick(c, now))
  {
    NackPassValid(DeliverDue(c, now), now);
  }

  /** Every call, on any arguments, keeps the invariant. */
  lemma StepValid(c: Core, op: Op)
    requires Valid(c)
    ensures Valid(Step(c, op))
  {
    hide FeedCore, HandleTimer, Tick;
    match op
    case OpFeed(now, path, pkt) => FeedValid(c, now, path, pkt);
    case OpTimer(now, id, rescaled) => TimerValid(c, now, id, rescaled);
    case OpTick(now) => TickValid(c, now);
    case OpFeedback(_, _) =>
  }

  function Run(c: Core, ops: seq<Op>): (r: Core)
    requires Valid(c)
    ensures Valid(r)
  {
    if ops == [] then c
    else
      hide Step;
      StepValid(Run(c, Most(ops)), Last(ops));
      Step(Run(c, Most(ops)), Last(ops))
  }

  lemma NewValid(cfg: Config, est: Estimator, recoveryBuffer: int, ringSize: int)
    requires RingSize(ringSize) && cfg.nackSeqsPerSec >= 0.0 && cfg.nackTokenBurst >= 0.0
    ensures Valid(NewCore(cfg, est, recoveryBuffer, ringSize))
  {
    var c := NewCore(cfg, est, recoveryBuffer, ringSize);
    assert c.buf.Valid() && c.buf.NothingBuffered();
    Recovery.NewArqValid(cfg);
  }

  /** The packet is taken into the buffer. */
  predicate Accepts(c: Core, now: int, pkt: MediaPacket)
    requires c.buf.Valid()
  {
    var c1 := Prepare(c, now, pkt);
    var (clk, packetTime) := Track(c1.clk, c1.x, now, pkt);
    if c1.started then Judge(c1.(clk := clk), now, pkt, packetTime).Accept? else !pkt.retransmit
  }

  // ---- no lost wake-up, and packet conservation, in the window ----

  /** The window assumption on one call: a packet about to be accepted lies within
      one ring span of the playout cursor. */
  predicate InWindow(c: Core, op: Op)
    requires c.buf.Valid()
  {
    op.OpFeed? ==>
      var c1 := Prepare(c, op.now, op.pkt);
      var (clk, packetTime) := Track(c1.clk, c1.x, op.now, op.pkt);
      c1.started && Judge(c1.(clk := clk), op.now, op.pkt, packetTime).Accept? ==>
        Fwd(c1.buf.deliverNext, op.pkt.seqno) < |c1.buf.ring|
  }

  /** If anything is buffered the playout timer is armed no later than the
      deadline of the lowest buffered sequence. */
  predicate WakesInTime(c: Core)
    requires c.buf.Valid()
  {
    && c.buf.Windowed()
    && (Queue(c.buf) != [] ==> c.playoutArmed && c.playoutDeadline <= Queue(c.buf)[0].outputTime)
  }

  /** Everything accepted was delivered, was overwritten, or is still buffered. */
  predicate Balanced(b: Buffer)
    requires b.Valid()
  {
    b.received == b.delivered + b.overwritten + |Queue(b)|
  }

  lemma EmptyQueue(b: Buffer)
    requires b.Valid() && b.NothingBuffered()
    ensures Queue(b) == []
  {
    SpanOfHoles(b.ring, b.deliverNext, 0, b.Ahead() + 1);
  }

  /** A new receiver meets what the run theorems ask of their first state. */
  lemma NewWakes(cfg: Config, est: Estimator, recoveryBuffer: int, ringSize: int)
    requires RingSize(ringSize) && cfg.nackSeqsPerSec >= 0.0 && cfg.nackTokenBurst >= 0.0
    ensures var c := NewCore(cfg, est, recoveryBuffer, ringSize);
      Valid(c) && WakesInTime(c) && Balanced(c.buf)
  {
    NewValid(cfg, est, recoveryBuffer, ringSize);
    EmptyQueue(NewCore(cfg, est, recoveryBuffer, ringSize).buf);
  }

  /** The first packet is then all that is buffered. */
  lemma StartQueue(c: Core, now: int, path: int, pkt: MediaPacket)
    requires Valid(c) && !c.started && Valid(Start(c, now, path, pkt))
    ensures Queue(Start(c, now, path, pkt).buf) == [Hold(pkt, now, now, c.x.recoveryBuffer)]
  {
    var r := Start(c, now, path, pkt);
    assert Add(pkt.seqno, 0) == pkt.seqno;
    assert Span(r.buf.ring, pkt.seqno, 1, 1) == [];
  }

  lemma StartWakes(c: Core, now: int, path: int, pkt: MediaPacket)
    requires Valid(c) && !c.started
    ensures var r := Start(c, now, path, pkt);
      && Valid(r) && WakesInTime(r)
      && (Balanced(c.buf) ==> Balanced(r.buf))
  {
    StartValid(c, now, path, pkt);
    EmptyQueue(c.buf);
    StartQueue(c, now, path, pkt);
  }

  lemma AdmitWakes(c: Core, now: int, path: int, pkt: MediaPacket, packetTime: int, outOfOrder: bool)
    requires Valid(c) && c.started && WakesInTime(c)
    requires !Less(pkt.seqno, c.buf.deliverNext) && Fwd(c.buf.deliverNext, pkt.seqno) < |c.buf.ring|
    ensures var r := Admit(c, now, path, pkt, packetTime, outOfOrder);
      && Valid(r) && WakesInTime(r)
      && (Balanced(c.buf) ==> Balanced(r.buf))
  {
    hide Queue;
    AdmitValid(c, now, path, pkt, packetTime, outOfOrder);
    QueueAfterInsert(c.buf, Hold(pkt, now, packetTime, c.x.recoveryBuffer));
  }

  lemma DeliverWakes(c: Core, now: int)
    requires Valid(c) && c.buf.Windowed()
    requires WakesInTime(c) || !c.playoutArmed
    ensures var r := DeliverDue(c, now);
      && Valid(r) && WakesInTime(r)
      && (Balanced(c.buf) ==> Balanced(r.buf))
  {
    hide Drain, Queue, DueCount, Played;
    if c.started { DrainPlaysDuePrefix(c.buf, now); } else { EmptyQueue(c.buf); }
  }

  lemma TimerWakes(c: Core, now: int, id: TimerId, rescaled: int)
    requires Valid(c) && WakesInTime(c)
    ensures var r := HandleTimer(c, now, id, rescaled);
      Valid(r) && WakesInTime(r) && (Balanced(c.buf) ==> Balanced(r.buf))
  {
    TimerValid(c, now, id, rescaled);
    if id.TimerPlayout? { DeliverWakes(c.(playoutArmed := false), now); }
  }

  lemma TickWakes(c: Core, now: int)
    requires Valid(c) && WakesInTime(c)
    ensures var r := Tick(c, now);
      Valid(r) && WakesInTime(r) && (Balanced(c.buf) ==> Balanced(r.buf))
  {
    TickValid(c, now);
    DeliverWakes(c, now);
  }

  /** No lost wake-up and no packet unaccounted for, after any call that respects
      the window; only a change of flow discards buffered packets. */
  lemma StepWakes(c: Core, op: Op)
    requires Valid(c) && WakesInTime(c) && InWindow(c, op)
    ensures Valid(Step(c, op)) && WakesInTime(Step(c, op))
    ensures Balanced(c.buf) && !(op.OpFeed? && ChangesFlow(c, op.pkt)) ==> Balanced(Step(c, op).buf)
  {
    hide FeedCore, HandleTimer, Tick, FeedFeedback, InWindow, WakesInTime, Balanced, Valid;
    match op
    case OpFeed(now, path, pkt) => FeedWakes(c, now, path, pkt);
    case OpTimer(now, id, rescaled) => TimerWakes(c, now, id, rescaled);
    case OpTick(now) => TickWakes(c, now);
    case OpFeedback(now, fb) => FeedbackWakes(c, now, fb);
  }

  lemma FeedbackWakes(c: Core, now: int, fb: Feedback)
    requires Valid(c) && WakesInTime(c)
    ensures var r := FeedFeedback(c, now, fb);
      Valid(r) && WakesInTime(r) && (Balanced(c.buf) ==> Balanced(r.buf))
  {
  }

  lemma FeedWakes(c: Core, now: int, path: int, pkt: MediaPacket)
    requires Valid(c) && WakesInTime(c) && InWindow(c, OpFeed(now, path, pkt))
    ensures var r := FeedCore(c, now, path, pkt);
      && Valid(r) && WakesInTime(r)
      && (Balanced(c.buf) && !ChangesFlow(c, pkt) ==> Balanced(r.buf))
  {
    FeedValid(c, now, path, pkt);
    PrepareValid(c, now, pkt);
    var c1 := Prepare(c, now, pkt);
    if ChangesFlow(c, pkt) { EmptyQueue(c1.buf); }
    if c1.started {
      var (clk, packetTime) := Track(c1.clk, c1.x, now, pkt);
      var c2 := c1.(clk := clk);
      match Judge(c2, now, pkt, packetTime)
      case Accept(o) => AdmitWakes(c2, now, path, pkt, packetTime, o);
      case _ =>
    } else if !pkt.retransmit {
      StartWakes(c1, now, path, pkt);
    }
  }

  // ---- conservation of sequence numbers, for any input ----

  /** A call re-anchors the cursor when it starts a flow. */
  predicate Anchors(c: Core, op: Op) {
    op.OpFeed? && (!c.started || ChangesFlow(c, op.pkt))
  }

  function Passed(b: Buffer): nat { b.delivered + b.lost }

  /** From b to r, as many sequences were delivered or lost as the cursor passed. */
  predicate Moved(b: Buffer, r: Buffer) {
    Passed(r) >= Passed(b) && (Passed(r) - Passed(b)) % 0x1_0000_0000 == Fwd(b.deliverNext, r.deliverNext)
  }

  lemma AdmitInserts(c: Core, now: int, path: int, pkt: MediaPacket, packetTime: int, outOfOrder: bool)
    requires Valid(c)
    ensures Admit(c, now, path, pkt, packetTime, outOfOrder).buf
         == Insert(c.buf, Hold(pkt, now, packetTime, c.x.recoveryBuffer))
  {
  }

  lemma FeedKeepsCursor(c: Core, now: int, path: int, pkt: MediaPacket)
    requires Valid(c) && !Anchors(c, OpFeed(now, path, pkt))
    ensures var b := FeedCore(c, now, path, pkt).buf;
      Passed(b) == Passed(c.buf) && b.deliverNext == c.buf.deliverNext && b.events == c.buf.events
  {
    var c1 := Prepare(c, now, pkt);
    assert c1.started && c1.buf == c.buf;
    var (clk, packetTime) := Track(c1.clk, c1.x, now, pkt);
    var c2 := c1.(clk := clk);
    match Judge(c2, now, pkt, packetTime)
    case Accept(o) => AdmitInserts(c2, now, path, pkt, packetTime, o);
    case _ =>
  }

  lemma AccountsMoved(b: Buffer, r: Buffer)
    requires Passed(r) == Passed(b) + Fwd(b.deliverNext, r.deliverNext)
    ensures Moved(b, r)
  {
  }

  lemma DeliverAccounts(c: Core, now: int)
    requires Valid(c)
    ensures var b := DeliverDue(c, now).buf;
      Passed(b) == Passed(c.buf) + Fwd(c.buf.deliverNext, b.deliverNext)
  {
    DrainAccounts(c.buf, now);
  }

  lemma TimerAccounts(c: Core, now: int, id: TimerId, rescaled: int)
    requires Valid(c)
    ensures var b := HandleTimer(c, now, id, rescaled).buf;
      Passed(b) == Passed(c.buf) + Fwd(c.buf.deliverNext, b.deliverNext)
  {
    DeliverAccounts(c.(playoutArmed := false), now);
  }

  lemma TickAccounts(c: Core, now: int)
    requires Valid(c)
    ensures var b := Tick(c, now).buf;
      Passed(b) == Passed(c.buf) + Fwd(c.buf.deliverNext, b.deliverNext)
  {
    DeliverAccounts(c, now);
  }

  /** Unless it re-anchors, a call counts every sequence the cursor passes. */
  lemma StepAccounts(c: Core, op: Op)
    requires Valid(c) && !Anchors(c, op)
    ensures Moved(c.buf, Step(c, op).buf)
  {
    hide FeedCore, HandleTimer, Tick;
    match op {
      case OpFeed(now, path, pkt) => FeedKeepsCursor(c, now, path, pkt);
      case OpTimer(now, id, rescaled) => TimerAccounts(c, now, id, rescaled);
      case OpTick(now) => TickAccounts(c, now);
      case OpFeedback(_, _) =>
    }
    AccountsMoved(c.buf, Step(c, op).buf);
  }

  predicate NeverAnchors(c: Core, ops: seq<Op>)
    requires Valid(c)
  {
    ops == [] || (NeverAnchors(c, Most(ops)) && !Anchors(Run(c, Most(ops)), Last(ops)))
  }

  /** Over any run without re-anchoring, delivered plus lost is how far the cursor
      moved (modulo the sequence space). */
  lemma {:induction false} RunAccounts(c: Core, ops: seq<Op>)
    requires Valid(c) && NeverAnchors(c, ops)
    ensures Moved(c.buf, Run(c, ops).buf)
  {
    hide Step;
    if ops != [] {
      RunAccounts(c, Most(ops));
      StepAccounts(Run(c, Most(ops)), Last(ops));
      MovedTransitive(c.buf, Run(c, Most(ops)).buf, Run(c, ops).buf);
    }
  }

  lemma MovedTransitive(a: Buffer, b: Buffer, c: Buffer)
    requires Moved(a, b) && Moved(b, c)
    ensures Moved(a, c)
  {
    FwdSum(Passed(b) - Passed(a), Passed(c) - Passed(b), a.deliverNext, b.deliverNext, c.deliverNext);
  }

  lemma FwdSum(x: int, y: int, a: u32, b: u32, c: u32)
    requires x % 0x1_0000_0000 == Fwd(a, b) && y % 0x1_0000_0000 == Fwd(b, c)
    ensures (x + y) % 0x1_0000_0000 == Fwd(a, c)
  {
    var p, q := x / 0x1_0000_0000, y / 0x1_0000_0000;
    assert x + y == 0x1_0000_0000 * (p + q) + Fwd(a, b) + Fwd(b, c);
  }

  // ---- whole runs in the window ----

  predicate RunInWindow(c: Core, ops: seq<Op>)
    requires Valid(c)
  {
    ops == [] || (RunInWindow(c, Most(ops)) && InWindow(Run(c, Most(ops)), Last(ops)))
  }

  predicate OneFlow(c: Core, ops: seq<Op>)
    requires Valid(c)
  {
    ops == [] ||
    (OneFlow(c, Most(ops)) && !(Last(ops).OpFeed? && ChangesFlow(Run(c, Most(ops)), Last(ops).pkt)))
  }

  /** No run of calls that respects the window ever loses a wake-up; while it stays
      on one flow, received = delivered + overwritten + buffered throughout. */
  lemma {:induction false} RunWakes(c: Core, ops: seq<Op>)
    requires Valid(c) && WakesInTime(c) && RunInWindow(c, ops)
    ensures WakesInTime(Run(c, ops))
    ensures Balanced(c.buf) && OneFlow(c, ops) ==> Balanced(Run(c, ops).buf)
  {
    hide Step, WakesInTime, Balanced, InWindow;
    if ops != [] {
      RunWakes(c, Most(ops));
      StepWakes(Run(c, Most(ops)), Last(ops));
    }
  }
}
