/** Conservation of contents at the receiver: over any run in the window, what was
    accepted is exactly what was delivered, what is still buffered, and what a
    replacement or a change of flow discarded, each packet as often. */
module ReceiverDelivery {
  import opened Serial
  import opened FlowTypes
  import opened PlayoutBuffer
  import opened ReceiverSpec
  import opened ReceiverProps

  /** A packet as a delivery would carry it, apart from the discontinuity flag. */
  function Content(pkt: MediaPacket): Deliver {
    Deliver(pkt.seqno, pkt.sourceTime, pkt.payload, false, pkt.frag, pkt.virtSrcPort, pkt.virtDstPort)
  }

  function Contents(q: seq<Held>): seq<Deliver> {
    seq(|q|, i requires 0 <= i < |q| => ToEvent(q[i], false))
  }

  function Unflagged(es: seq<Deliver>): seq<Deliver> {
    seq(|es|, i requires 0 <= i < |es| => es[i].(discontinuity := false))
  }

  /** What the receiver has delivered or still holds. */
  function Ledger(b: Buffer): multiset<Deliver>
    requires b.Valid()
  {
    multiset(Unflagged(b.events)) + multiset(Contents(Queue(b)))
  }

  /** What a call takes into the buffer. */
  function Taken(c: Core, op: Op): multiset<Deliver>
    requires c.buf.Valid()
  {
    if op.OpFeed? && Accepts(c, op.now, op.pkt) then multiset{Content(op.pkt)} else multiset{}
  }

  /** The packet buffered under a sequence, if there is one. */
  function Replaced(b: Buffer, seqno: u32): seq<Held>
    requires b.Valid()
  {
    if b.Holds(seqno) then [b.Get(seqno)] else []
  }

  /** What a call discards: everything buffered when the flow changes, or the packet
      whose sequence an accepted packet takes over. */
  function Discarded(c: Core, op: Op): multiset<Deliver>
    requires c.buf.Valid()
  {
    if !op.OpFeed? then multiset{}
    else if ChangesFlow(c, op.pkt) then multiset(Contents(Queue(c.buf)))
    else if Accepts(c, op.now, op.pkt) then multiset(Contents(Replaced(c.buf, op.pkt.seqno)))
    else multiset{}
  }

  // ---- one call ----

  lemma ContentsConcat(x: seq<Held>, y: seq<Held>)
    ensures Contents(x + y) == Contents(x) + Contents(y)
  {
  }

  lemma {:induction false} PlayedContents(q: seq<Held>, next: u32, pending: bool)
    ensures Unflagged(Played(q, next, pending)) == Contents(q)
  {
    if q != [] {
      PlayedContents(q[1..], Add(q[0].seqno, 1), false);
      var e := ToEvent(q[0], pending || q[0].seqno != next);
      var rest := Played(q[1..], Add(q[0].seqno, 1), false);
      assert Unflagged([e] + rest) == Unflagged([e]) + Unflagged(rest);
      assert q == [q[0]] + q[1..];
      ContentsConcat([q[0]], q[1..]);
      assert Unflagged([e]) == Contents([q[0]]);
    }
  }

  /** Delivering moves packets from the buffer to the events and loses none. */
  lemma DrainConserves(b: Buffer, now: int)
    requires b.Valid() && b.Windowed()
    ensures Ledger(Drain(b, now).0) == Ledger(b)
  {
    hide Drain, Queue, DueCount, Played, Contents, Unflagged;
    DrainPlaysDuePrefix(b, now);
    var q, m := Queue(b), DueCount(Queue(b), now);
    var played := Played(q[..m], b.deliverNext, b.pending);
    PlayedContents(q[..m], b.deliverNext, b.pending);
    UnflaggedConcat(b.events, played);
    ContentsConcat(q[..m], q[m..]);
    assert q == q[..m] + q[m..];
    Moved(multiset(Unflagged(b.events)), multiset(Contents(q[..m])), multiset(Contents(q[m..])));
  }

  lemma UnflaggedConcat(x: seq<Deliver>, y: seq<Deliver>)
    ensures Unflagged(x + y) == Unflagged(x) + Unflagged(y)
  {
  }

  lemma Moved(a: multiset<Deliver>, b: multiset<Deliver>, c: multiset<Deliver>)
    ensures (a + b) + c == a + (b + c)
  {
  }

  /** Putting h in the place of mid. */
  lemma SpliceContents(x: seq<Held>, mid: seq<Held>, y: seq<Held>, h: Held)
    ensures multiset(Contents(x + [h] + y)) + multiset(Contents(mid))
         == multiset(Contents(x + mid + y)) + multiset{ToEvent(h, false)}
  {
    ContentsConcat(x + mid, y);
    ContentsConcat(x, mid);
    ContentsConcat(x + [h], y);
    ContentsConcat(x, [h]);
    assert Contents([h]) == [ToEvent(h, false)];
  }

  lemma Regroup(e: multiset<Deliver>, q: multiset<Deliver>, q': multiset<Deliver>, d: multiset<Deliver>, t: multiset<Deliver>)
    requires q' + d == q + t
    ensures e + q' + d == e + q + t
  {
    assert e + q' + d == e + (q' + d);
    assert e + q + t == e + (q + t);
  }

  lemma InsertConserves(b: Buffer, h: Held)
    requires b.Valid() && b.Windowed() && !Less(h.seqno, b.deliverNext)
    requires Fwd(b.deliverNext, h.seqno) < |b.ring|
    ensures Insert(b, h).Valid()
    ensures Ledger(Insert(b, h)) + multiset(Contents(Replaced(b, h.seqno)))
         == Ledger(b) + multiset{ToEvent(h, false)}
  {
    hide Queue, Contents, Unflagged;
    var x, y := InsertSplits(b, h);
    SpliceContents(x, Replaced(b, h.seqno), y, h);
    Regroup(multiset(Unflagged(b.events)), multiset(Contents(Queue(b))), multiset(Contents(Queue(Insert(b, h)))),
            multiset(Contents(Replaced(b, h.seqno))), multiset{ToEvent(h, false)});
  }

  lemma StartConserves(c: Core, now: int, path: int, pkt: MediaPacket)
    requires Valid(c) && !c.started
    ensures Start(c, now, path, pkt).buf.Valid()
    ensures Ledger(Start(c, now, path, pkt).buf) == Ledger(c.buf) + multiset{Content(pkt)}
  {
    hide Queue, Unflagged, Contents, NtpToTimestamp;
    StartValid(c, now, path, pkt);
    EmptyQueue(c.buf);
    StartQueue(c, now, path, pkt);
    FewContents(Hold(pkt, now, now, c.x.recoveryBuffer));
  }

  lemma FewContents(h: Held)
    ensures Contents([]) == [] && Contents([h]) == [ToEvent(h, false)]
  {
  }

  lemma FeedStartedConserves(c: Core, now: int, path: int, pkt: MediaPacket)
    requires Valid(c) && c.started && c.buf.Windowed()
    requires VerdictOn(c, now, pkt).Accept? ==> Fwd(c.buf.deliverNext, pkt.seqno) < |c.buf.ring|
    requires FeedStarted(c, now, path, pkt).buf.Valid()
    ensures var r := FeedStarted(c, now, path, pkt);
      if VerdictOn(c, now, pkt).Accept?
      then Ledger(r.buf) + multiset(Contents(Replaced(c.buf, pkt.seqno))) == Ledger(c.buf) + multiset{Content(pkt)}
      else r.buf == c.buf
  {
    hide Admit, Ledger, Contents, Replaced;
    var (clk, packetTime) := Track(c.clk, c.x, now, pkt);
    match VerdictOn(c, now, pkt)
    case Accept(o) =>
      AdmitInserts(c.(clk := clk), now, path, pkt, packetTime, o);
      InsertConserves(c.buf, Hold(pkt, now, packetTime, c.x.recoveryBuffer));
    case _ =>
  }

  lemma FeedConserves(c: Core, now: int, path: int, pkt: MediaPacket)
    requires Valid(c) && WakesInTime(c) && InWindow(c, OpFeed(now, path, pkt))
    ensures var op, r := OpFeed(now, path, pkt), FeedCore(c, now, path, pkt);
      r.buf.Valid() && Ledger(r.buf) + Discarded(c, op) == Ledger(c.buf) + Taken(c, op)
  {
    hide FeedStarted, Start, Ledger, Contents, Queue, Replaced, Track, Judge;
    FeedValid(c, now, path, pkt);
    PrepareValid(c, now, pkt);
    var c1 := Prepare(c, now, pkt);
    if ChangesFlow(c, pkt) {
      ResetConserves(c, c1.buf);
      StartConserves(c1, now, path, pkt);
    } else if c1.started {
      FeedStartedConserves(c1, now, path, pkt);
    } else if !pkt.retransmit {
      StartConserves(c1, now, path, pkt);
      NothingReplaced(c.buf, pkt.seqno);
    }
  }

  lemma NothingReplaced(b: Buffer, seqno: u32)
    requires b.Valid() && b.NothingBuffered()
    ensures Contents(Replaced(b, seqno)) == []
  {
  }

  /** Emptying the buffer discards what it held and no delivery. */
  lemma ResetConserves(c: Core, b: Buffer)
    requires Valid(c) && b.Valid() && b.NothingBuffered() && b.events == c.buf.events
    ensures Ledger(b) + multiset(Contents(Queue(c.buf))) == Ledger(c.buf)
  {
    EmptyQueue(b);
  }

  lemma DeliverConserves(c: Core, now: int)
    requires Valid(c) && c.buf.Windowed()
    ensures DeliverDue(c, now).buf.Valid() && Ledger(DeliverDue(c, now).buf) == Ledger(c.buf)
  {
    hide Ledger;
    if c.started { DrainConserves(c.buf, now); }
  }

  lemma StepConserves(c: Core, op: Op)
    requires Valid(c) && WakesInTime(c) && InWindow(c, op)
    ensures Step(c, op).buf.Valid()
    ensures Ledger(Step(c, op).buf) + Discarded(c, op) == Ledger(c.buf) + Taken(c, op)
  {
    hide Ledger, FeedCore, DeliverDue;
    match op
    case OpFeed(now, path, pkt) => FeedConserves(c, now, path, pkt);
    case OpTimer(now, id, rescaled) => DeliverConserves(c.(playoutArmed := false), now);
    case OpTick(now) => DeliverConserves(c, now);
    case OpFeedback(_, _) =>
  }

  // ---- whole runs ----

  /** Everything a run takes in, and everything it discards. */
  function AllTaken(c: Core, ops: seq<Op>): multiset<Deliver>
    requires Valid(c)
  {
    if ops == [] then multiset{} else AllTaken(c, Most(ops)) + Taken(Run(c, Most(ops)), Last(ops))
  }

  function AllDiscarded(c: Core, ops: seq<Op>): multiset<Deliver>
    requires Valid(c)
  {
    if ops == [] then multiset{} else AllDiscarded(c, Most(ops)) + Discarded(Run(c, Most(ops)), Last(ops))
  }

  lemma Chain(l0: multiset<Deliver>, l1: multiset<Deliver>, l2: multiset<Deliver>,
              d0: multiset<Deliver>, d1: multiset<Deliver>, t0: multiset<Deliver>, t1: multiset<Deliver>)
    requires l1 + d0 == l0 + t0 && l2 + d1 == l1 + t1
    ensures l2 + (d0 + d1) == l0 + (t0 + t1)
  {
    assert l2 + (d0 + d1) == (l2 + d1) + d0;
    assert (l1 + t1) + d0 == (l1 + d0) + t1;
    assert (l0 + t0) + t1 == l0 + (t0 + t1);
  }

  /** Over any run in the window no accepted packet is lost, altered or repeated:
      it is delivered, buffered, or discarded for a stated reason. */
  lemma {:induction false} RunConserves(c: Core, ops: seq<Op>)
    requires Valid(c) && WakesInTime(c) && RunInWindow(c, ops)
    ensures Ledger(Run(c, ops).buf) + AllDiscarded(c, ops) == Ledger(c.buf) + AllTaken(c, ops)
  {
    hide Step, WakesInTime, InWindow, Ledger, Taken, Discarded;
    if ops != [] {
      RunConserves(c, Most(ops));
      RunWakes(c, Most(ops));
      var before, op := Run(c, Most(ops)), Last(ops);
      StepConserves(before, op);
      Chain(Ledger(c.buf), Ledger(before.buf), Ledger(Run(c, ops).buf),
            AllDiscarded(c, Most(ops)), Discarded(before, op), AllTaken(c, Most(ops)), Taken(before, op));
    }
  }

  /** The calls that deliver what is due at now: a tick, or the playout timer. */
  predicate Plays(op: Op, now: int) {
    op == OpTick(now) || (op.OpTimer? && op.now == now && op.id.TimerPlayout?)
  }

  /** From a new receiver: once a tick or the playout timer finds every buffered packet
      due, everything accepted and not discarded has been delivered, with exactly the
      contents it was accepted with. */
  lemma AcceptedIsDelivered(cfg: Config, est: Estimator, recoveryBuffer: int, ringSize: int, ops: seq<Op>, op: Op, now: int)
    requires RingSize(ringSize) && cfg.nackSeqsPerSec >= 0.0 && cfg.nackTokenBurst >= 0.0 && Plays(op, now)
    requires var c := NewCore(cfg, est, recoveryBuffer, ringSize);
      && Valid(c) && RunInWindow(c, ops)
      && forall i :: 0 <= i < |Queue(Run(c, ops).buf)| ==> Queue(Run(c, ops).buf)[i].outputTime <= now
    ensures var c := NewCore(cfg, est, recoveryBuffer, ringSize);
      && Step(Run(c, ops), op).buf.Valid()
      && multiset(Unflagged(Step(Run(c, ops), op).buf.events)) + AllDiscarded(c, ops) == AllTaken(c, ops)
  {
    hide Run, AllTaken, AllDiscarded, RunInWindow, WakesInTime, NewCore, Step;
    var c := NewCore(cfg, est, recoveryBuffer, ringSize);
    NewWakes(cfg, est, recoveryBuffer, ringSize);
    NewLedger(cfg, est, recoveryBuffer, ringSize);
    RunConserves(c, ops);
    RunWakes(c, ops);
    PlaysAll(Run(c, ops), op, now);
  }

  lemma NewLedger(cfg: Config, est: Estimator, recoveryBuffer: int, ringSize: int)
    requires RingSize(ringSize) && cfg.nackSeqsPerSec >= 0.0 && cfg.nackTokenBurst >= 0.0
    ensures var c := NewCore(cfg, est, recoveryBuffer, ringSize);
      c.buf.Valid() && Ledger(c.buf) == multiset{}
  {
    NewValid(cfg, est, recoveryBuffer, ringSize);
    EmptyQueue(NewCore(cfg, est, recoveryBuffer, ringSize).buf);
  }

  lemma PlaysAll(c: Core, op: Op, now: int)
    requires Valid(c) && WakesInTime(c) && Plays(op, now)
    requires forall i :: 0 <= i < |Queue(c.buf)| ==> Queue(c.buf)[i].outputTime <= now
    ensures var r := Step(c, op);
      r.buf.Valid() && Queue(r.buf) == [] && multiset(Unflagged(r.buf.events)) == Ledger(c.buf)
  {
    hide Drain, Queue;
    if c.started {
      DrainPlaysDuePrefix(c.buf, now);
      AllDue(Queue(c.buf), now);
      DrainConserves(c.buf, now);
    } else {
      EmptyQueue(c.buf);
    }
  }

  lemma {:induction false} AllDue(q: seq<Held>, now: int)
    requires forall i :: 0 <= i < |q| ==> q[i].outputTime <= now
    ensures DueCount(q, now) == |q|
  {
    if q != [] { AllDue(q[1..], now); }
  }
}
