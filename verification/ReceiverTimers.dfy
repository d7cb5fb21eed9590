/** The receiver's timers as the host sees them, and its request budgets, over
    whole runs of calls. */
module ReceiverTimers {
  import opened Serial
  import opened FlowTypes
  import opened PlayoutBuffer
  import opened ReceiverSpec
  import opened ReceiverProps
  import Recovery

  // ---- the host's timer wheel ----

  /** The receiver's shadow of its timers agrees with a wheel that was at (tp, tn)
      when `base` outputs had been emitted. */
  predicate Heard(c: Core, base: nat, tp: Option<int>, tn: Option<int>) {
    && base <= |c.outputs|
    && (c.playoutArmed ==> Hear(tp, TimerPlayout, c.outputs[base..]) == Some(c.playoutDeadline))
    && (c.arq.nackArmed ==> Hear(tn, TimerNack, c.outputs[base..]).Some?)
  }

  lemma HeardAppend(outs: seq<Output>, base: nat, o: Output)
    requires base <= |outs|
    ensures (outs + [o])[base..] == outs[base..] + [o]
    ensures Most(outs[base..] + [o]) == outs[base..] && Last(outs[base..] + [o]) == o
  {
  }

  lemma ArmHeard(c: Core, d: int, base: nat, tp: Option<int>, tn: Option<int>)
    requires Heard(c, base, tp, tn)
    ensures Heard(Arm(c, d), base, tp, tn)
  {
    HeardAppend(c.outputs, base, SetTimer(TimerPlayout, d));
  }

  lemma DisarmHeard(c: Core, base: nat, tp: Option<int>, tn: Option<int>)
    requires Heard(c, base, tp, tn)
    ensures Heard(Disarm(c), base, tp, tn)
  {
    HeardAppend(c.outputs, base, ClearTimer(TimerPlayout));
  }

  lemma ScheduleHeard(c: Core, now: int, base: nat, tp: Option<int>, tn: Option<int>)
    requires Heard(c, base, tp, tn)
    ensures Heard(ScheduleNack(c, now), base, tp, tn)
  {
    HeardAppend(c.outputs, base, SetTimer(TimerNack, now + NACK_CADENCE));
  }

  /** Outputs about anything else leave both timers as they were. */
  lemma OtherHeard(c: Core, o: Output, base: nat, tp: Option<int>, tn: Option<int>)
    requires Heard(c, base, tp, tn)
    requires o.SendFeedback? || (o.SetTimer? && o.id.TimerRttEcho?)
    ensures Heard(c.(outputs := c.outputs + [o]), base, tp, tn)
  {
    HeardAppend(c.outputs, base, o);
  }

  lemma NackPassHeard(c: Core, now: int, base: nat, tp: Option<int>, tn: Option<int>)
    requires Valid(c.(arq := c.arq.(nackArmed := true))) && Heard(c, base, tp, tn)
    ensures Heard(NackPass(c, now), base, tp, tn)
  {
    NackPassValid(c, now);
    var (arq, batch) := Recovery.ProcessNacks(c.arq, c.x, c.buf.ring, now);
    OtherHeard(c, SendFeedback(c.lastPath, NackRequest(c.ssrc, batch)), base, tp, tn);
  }

  lemma DeliverHeard(c: Core, now: int, base: nat, tp: Option<int>, tn: Option<int>)
    requires c.buf.Valid() && Heard(c, base, tp, tn)
    ensures Heard(DeliverDue(c, now), base, tp, tn)
  {
    if c.started {
      var (buf, wake) := Drain(c.buf, now);
      DisarmHeard(c.(buf := buf), base, tp, tn);
      if wake.WakeAt? { ArmHeard(c.(buf := buf), wake.deadline, base, tp, tn); }
    }
  }

  lemma StartHeard(c: Core, now: int, path: int, pkt: MediaPacket, base: nat, tp: Option<int>, tn: Option<int>)
    requires RingSize(|c.buf.ring|) && Heard(c, base, tp, tn)
    ensures Heard(Start(c, now, path, pkt), base, tp, tn)
  {
    hide Hear, NtpToTimestamp;
    var c1 := Anchored(c, now, path, pkt);
    var c2 := Arm(c1, now + c.x.recoveryBuffer);
    ArmHeard(c1, now + c.x.recoveryBuffer, base, tp, tn);
    OtherHeard(c2, SetTimer(TimerRttEcho, now + RTT_ECHO_INTERVAL), base, tp, tn);
  }

  lemma AdmitHeard(c: Core, now: int, path: int, pkt: MediaPacket, packetTime: int, outOfOrder: bool,
                   base: nat, tp: Option<int>, tn: Option<int>)
    requires Valid(c) && Heard(c, base, tp, tn)
    ensures Heard(Admit(c, now, path, pkt, packetTime, outOfOrder), base, tp, tn)
  {
    var ring := Insert(c.buf, Hold(pkt, now, packetTime, c.x.recoveryBuffer)).ring;
    Recovery.MarkMissingValid(c.arq, c.x, ring, c.clk.shortSeq, now, path, pkt.seqno, packetTime);
    var c1 := Absorb(c, now, path, pkt, packetTime, outOfOrder);
    var d := packetTime + c.x.recoveryBuffer;
    assert Heard(c1, base, tp, tn);
    ArmHeard(c1, d, base, tp, tn);
    ScheduleHeard(Arm(c1, d), now, base, tp, tn);
  }

  lemma FeedHeard(c: Core, now: int, path: int, pkt: MediaPacket, base: nat, tp: Option<int>, tn: Option<int>)
    requires Valid(c) && Heard(c, base, tp, tn)
    ensures Heard(FeedCore(c, now, path, pkt), base, tp, tn)
  {
    PrepareValid(c, now, pkt);
    var c1 := Prepare(c, now, pkt);
    assert Heard(c1, base, tp, tn);
    if c1.started {
      var (clk, packetTime) := Track(c1.clk, c1.x, now, pkt);
      var c2 := c1.(clk := clk);
      match Judge(c2, now, pkt, packetTime)
      case Accept(o) => AdmitHeard(c2, now, path, pkt, packetTime, o, base, tp, tn);
      case _ =>
    } else if !pkt.retransmit {
      StartHeard(c1, now, path, pkt, base, tp, tn);
    }
  }

  /** Firing a timer takes it off the wheel. */
  function Fired(t: Option<int>, id: TimerId, op: Op): Option<int> {
    if op.OpTimer? && op.id == id then None else t
  }

  lemma StepHeard(c: Core, op: Op, base: nat, tp: Option<int>, tn: Option<int>)
    requires Valid(c) && Heard(c, base, tp, tn) && base == |c.outputs|
    ensures Heard(Step(c, op), base, Fired(tp, TimerPlayout, op), Fired(tn, TimerNack, op))
  {
    hide FeedCore, HandleTimer, Tick;
    var tp', tn' := Fired(tp, TimerPlayout, op), Fired(tn, TimerNack, op);
    match op
    case OpFeed(now, path, pkt) => FeedHeard(c, now, path, pkt, base, tp', tn');
    case OpTick(now) => TickHeard(c, now, base, tp', tn');
    case OpFeedback(now, fb) =>
      if fb.RttEchoRequest? {
        OtherHeard(c, SendFeedback(c.lastPath, RttEchoResponse(fb.echoSsrc, fb.timestamp, 0)), base, tp', tn');
      }
    case OpTimer(now, id, rescaled) => TimerHeard(c, now, id, rescaled, base, tp', tn');
  }

  lemma TickHeard(c: Core, now: int, base: nat, tp: Option<int>, tn: Option<int>)
    requires Valid(c) && Heard(c, base, tp, tn)
    ensures Heard(Tick(c, now), base, tp, tn)
  {
    DeliverHeard(c, now, base, tp, tn);
    NackPassHeard(DeliverDue(c, now), now, base, tp, tn);
  }

  lemma TimerHeard(c: Core, now: int, id: TimerId, rescaled: int, base: nat, tp: Option<int>, tn: Option<int>)
    requires Valid(c) && base == |c.outputs|
    requires !id.TimerPlayout? && c.playoutArmed ==> tp == Some(c.playoutDeadline)
    requires !id.TimerNack? && c.arq.nackArmed ==> tn.Some?
    ensures Heard(HandleTimer(c, now, id, rescaled), base, tp, tn)
  {
    match id
    case TimerPlayout => DeliverHeard(c.(playoutArmed := false), now, base, tp, tn);
    case TimerNack =>
      var c1 := c.(arq := c.arq.(nackArmed := false));
      NackPassHeard(c1, now, base, tp, tn);
      ScheduleHeard(NackPass(c1, now), now, base, tp, tn);
    case TimerRttEcho =>
      var o1 := SendFeedback(c.lastPath, RttEchoRequest(0, NtpFromTimestamp(now)));
      var o2 := SetTimer(TimerRttEcho, now + RTT_ECHO_INTERVAL);
      OtherHeard(c, o1, base, tp, tn);
      OtherHeard(c.(outputs := c.outputs + [o1]), o2, base, tp, tn);
      assert c.outputs + [o1] + [o2] == c.outputs + [o1, o2];
  }

  /** The host's timer `id` after a run of calls, each one's outputs performed. */
  function HostTimer(c: Core, ops: seq<Op>, id: TimerId): Option<int>
    requires Valid(c)
  {
    if ops == [] then None
    else
      var before := Run(c, Most(ops));
      var outs := Run(c, ops).outputs;
      Hear(Fired(HostTimer(c, Most(ops), id), id, Last(ops)), id,
           if |before.outputs| <= |outs| then outs[|before.outputs|..] else [])
  }

  /** Whenever the receiver believes a timer is armed, the host has it armed, the
      playout timer at exactly the believed deadline. */
  lemma {:induction false} HostAgrees(c: Core, ops: seq<Op>)
    requires Valid(c) && !c.playoutArmed && !c.arq.nackArmed
    ensures var r := Run(c, ops);
      && (r.playoutArmed ==> HostTimer(c, ops, TimerPlayout) == Some(r.playoutDeadline))
      && (r.arq.nackArmed ==> HostTimer(c, ops, TimerNack).Some?)
  {
    hide Step;
    if ops != [] {
      HostAgrees(c, Most(ops));
      var before := Run(c, Most(ops));
      StepHeard(before, Last(ops), |before.outputs|,
                HostTimer(c, Most(ops), TimerPlayout), HostTimer(c, Most(ops), TimerNack));
    }
  }

  /** From a fresh receiver, after any run of calls: while losses are queued the
      host holds a NACK timer; and if the run respects the window, while packets
      are buffered the host holds a playout timer due no later than the lowest. */
  lemma NoLostWakeUp(c: Core, ops: seq<Op>)
    requires Valid(c) && WakesInTime(c) && !c.playoutArmed && !c.arq.nackArmed
    ensures var r := Run(c, ops);
      && (r.arq.missing != [] ==> HostTimer(c, ops, TimerNack).Some?)
      && (RunInWindow(c, ops) && Queue(r.buf) != [] ==>
            var t := HostTimer(c, ops, TimerPlayout);
            t.Some? && t.value <= Queue(r.buf)[0].outputTime)
  {
    HostAgrees(c, ops);
    if RunInWindow(c, ops) { RunWakes(c, ops); }
  }

  /** In the window, delivery leaves the playout timer as the packets left ask for: armed
      no later than the first of them, and cleared if there is none. */
  lemma DeliverExact(c: Core, now: int)
    requires Valid(c) && c.started && c.buf.Windowed()
    ensures var r := DeliverDue(c, now);
      && DrainsTo(c.buf, now, r.buf, Drain(c.buf, now).1)
      && var (q, armed) := (Queue(r.buf), c.playoutArmed);
         var keeps := q != [] && armed && c.playoutDeadline <= q[0].outputTime;
         && r.playoutArmed == (q != [])
         && (q != [] ==> r.playoutDeadline == if keeps then c.playoutDeadline else q[0].outputTime)
         && r == c.(buf := r.buf, playoutArmed := r.playoutArmed, playoutDeadline := r.playoutDeadline, outputs := r.outputs)
         && r.outputs == c.outputs + (if q == [] then (if armed then [ClearTimer(TimerPlayout)] else [])
                                      else if keeps then [] else [SetTimer(TimerPlayout, q[0].outputTime)])
  {
    hide Queue, Drain, DueCount, Played, Jumps;
    DrainPlaysDuePrefix(c.buf, now);
  }

  /** The playout timer delivers, and is set again for the first packet left, if any. */
  lemma PlayoutTimerExact(c: Core, now: int, rescaled: int)
    requires Valid(c) && c.started && c.buf.Windowed()
    ensures var r := HandleTimer(c, now, TimerPlayout, rescaled);
      && DrainsTo(c.buf, now, r.buf, Drain(c.buf, now).1)
      && r.playoutArmed == (Queue(r.buf) != [])
      && (r.playoutArmed ==> r.playoutDeadline == Queue(r.buf)[0].outputTime)
      && r.outputs == c.outputs + (if Queue(r.buf) == [] then [] else [SetTimer(TimerPlayout, Queue(r.buf)[0].outputTime)])
  {
    hide Queue, Drain, DueCount, Played, Jumps, DeliverDue;
    DeliverExact(c.(playoutArmed := false), now);
  }

  // ---- request budgets ----

  predicate SmallRequest(o: Output) {
    o.SendFeedback? && o.fb.NackRequest? ==> |o.fb.missing| <= RIST_MAX_NACKS
  }

  predicate SmallRequests(outs: seq<Output>) {
    forall i :: 0 <= i < |outs| ==> SmallRequest(outs[i])
  }

  lemma AdmitSmall(c: Core, now: int, path: int, pkt: MediaPacket, packetTime: int, outOfOrder: bool)
    requires c.buf.Valid() && SmallRequests(c.outputs)
    ensures var r := Admit(c, now, path, pkt, packetTime, outOfOrder); SmallRequests(r.outputs) && r.x == c.x
  {
  }

  lemma FeedRequestsNothing(c: Core, now: int, path: int, pkt: MediaPacket)
    requires Valid(c) && SmallRequests(c.outputs)
    ensures var r := FeedCore(c, now, path, pkt); SmallRequests(r.outputs) && r.x == c.x
  {
    var c1 := Prepare(c, now, pkt);
    if c1.started {
      hide Admit;
      var (clk, packetTime) := Track(c1.clk, c1.x, now, pkt);
      var c2 := c1.(clk := clk);
      match Judge(c2, now, pkt, packetTime)
      case Accept(o) => AdmitSmall(c2, now, path, pkt, packetTime, o);
      case _ =>
    }
  }

  lemma NackPassSmall(c: Core, now: int)
    requires c.buf.Valid() && Recovery.Valid(c.arq, c.x.cfg) && SmallRequests(c.outputs)
    ensures SmallRequests(NackPass(c, now).outputs)
  {
    Recovery.ProcessNacksValid(c.arq, c.x, c.buf.ring, now);
  }

  lemma TimerSmall(c: Core, now: int, id: TimerId, rescaled: int)
    requires Valid(c) && SmallRequests(c.outputs)
    ensures var r := HandleTimer(c, now, id, rescaled); SmallRequests(r.outputs) && r.x.cfg == c.x.cfg
  {
    if id.TimerNack? { NackPassSmall(c.(arq := c.arq.(nackArmed := false)), now); }
  }

  lemma TickSmall(c: Core, now: int)
    requires Valid(c) && SmallRequests(c.outputs)
    ensures SmallRequests(Tick(c, now).outputs) && Tick(c, now).x == c.x
  {
    NackPassSmall(DeliverDue(c, now), now);
  }

  lemma StepSmall(c: Core, op: Op)
    requires Valid(c) && SmallRequests(c.outputs)
    ensures SmallRequests(Step(c, op).outputs) && Step(c, op).x.cfg == c.x.cfg
  {
    hide FeedCore, HandleTimer, Tick;
    match op
    case OpFeed(now, path, pkt) => FeedRequestsNothing(c, now, path, pkt);
    case OpTimer(now, id, rescaled) => TimerSmall(c, now, id, rescaled);
    case OpTick(now) => TickSmall(c, now);
    case OpFeedback(_, _) =>
  }

  /** Over any run: at most MaxRetries requests per detected loss, a bounded queue,
      and no request of more than 200 sequences. */
  lemma {:induction false} RunWithinBudget(c: Core, ops: seq<Op>)
    requires Valid(c) && SmallRequests(c.outputs)
    ensures var r := Run(c, ops);
      && r.x.cfg == c.x.cfg
      && r.arq.nacksSent <= c.x.cfg.maxRetries * r.arq.missingTotal
      && |r.arq.missing| <= c.x.cfg.missingCounterMax + 1
      && SmallRequests(r.outputs)
  {
    hide Step;
    if ops != [] {
      RunWithinBudget(c, Most(ops));
      StepSmall(Run(c, Most(ops)), Last(ops));
    }
  }

  // ---- the return-channel rate ----

  function Allowed(c: Core, t: int): real { Recovery.Allowance(c.arq, c.x.cfg, t) }

  /** The part of the state the rate limit depends on. */
  predicate SameBucket(c: Core, r: Core) {
    && r.arq.tokens == c.arq.tokens && r.arq.tokensTime == c.arq.tokensTime
    && r.arq.nacksSent == c.arq.nacksSent && r.x.cfg == c.x.cfg
  }

  lemma AdmitKeepsBucket(c: Core, now: int, path: int, pkt: MediaPacket, packetTime: int, outOfOrder: bool)
    requires Valid(c)
    ensures SameBucket(c, Admit(c, now, path, pkt, packetTime, outOfOrder))
  {
    var ring := Insert(c.buf, Hold(pkt, now, packetTime, c.x.recoveryBuffer)).ring;
    Recovery.MarkMissingValid(c.arq, c.x, ring, c.clk.shortSeq, now, path, pkt.seqno, packetTime);
  }

  lemma FeedKeepsBucket(c: Core, now: int, path: int, pkt: MediaPacket)
    requires Valid(c)
    ensures SameBucket(c, FeedCore(c, now, path, pkt))
  {
    var c1 := Prepare(c, now, pkt);
    PrepareValid(c, now, pkt);
    assert SameBucket(c, c1);
    if c1.started {
      var (clk, packetTime) := Track(c1.clk, c1.x, now, pkt);
      var c2 := c1.(clk := clk);
      match Judge(c2, now, pkt, packetTime)
      case Accept(o) => AdmitKeepsBucket(c2, now, path, pkt, packetTime, o);
      case _ =>
    }
  }

  lemma SameBucketSpends(c: Core, r: Core, t: int)
    requires SameBucket(c, r)
    ensures r.arq.nacksSent as real + Allowed(r, t) == c.arq.nacksSent as real + Allowed(c, t)
  {
  }

  lemma PassSpends(c: Core, now: int)
    requires Valid(c.(arq := c.arq.(nackArmed := true))) && c.x.cfg.nackSeqsPerSec > 0.0 && c.arq.tokensTime <= now
    ensures var r := NackPass(c, now);
      && r.arq.nacksSent as real + Allowed(r, now) == c.arq.nacksSent as real + Allowed(c, now)
      && r.arq.tokensTime <= now && r.x == c.x
  {
    Recovery.ProcessNacksValid(c.arq, c.x, c.buf.ring, now);
    Recovery.PassSpendsAllowance(c.arq, c.x, c.buf.ring, now);
  }

  /** From c to r at time t, the requests made were paid for out of the bucket. */
  predicate Paid(c: Core, r: Core, t: int) {
    && r.arq.nacksSent as real + Allowed(r, t) == c.arq.nacksSent as real + Allowed(c, t)
    && r.arq.tokensTime <= t && r.x.cfg == c.x.cfg
  }

  lemma TimerSpends(c: Core, now: int, id: TimerId, rescaled: int)
    requires Valid(c) && c.x.cfg.nackSeqsPerSec > 0.0 && c.arq.tokensTime <= now
    ensures Paid(c, HandleTimer(c, now, id, rescaled), now)
  {
    if id.TimerNack? {
      PassSpends(c.(arq := c.arq.(nackArmed := false)), now);
    } else {
      SameBucketSpends(c, HandleTimer(c, now, id, rescaled), now);
    }
  }

  lemma TickSpends(c: Core, now: int)
    requires Valid(c) && c.x.cfg.nackSeqsPerSec > 0.0 && c.arq.tokensTime <= now
    ensures Paid(c, Tick(c, now), now)
  {
    PassSpends(DeliverDue(c, now), now);
    SameBucketSpends(c, DeliverDue(c, now), now);
  }

  lemma StepSpends(c: Core, op: Op)
    requires Valid(c) && c.x.cfg.nackSeqsPerSec > 0.0 && c.arq.tokensTime <= op.now
    ensures Paid(c, Step(c, op), op.now)
  {
    hide FeedCore, HandleTimer, Tick;
    match op
    case OpFeed(now, path, pkt) =>
      FeedKeepsBucket(c, now, path, pkt);
      SameBucketSpends(c, Step(c, op), now);
    case OpTimer(now, id, rescaled) => TimerSpends(c, now, id, rescaled);
    case OpTick(now) => TickSpends(c, now);
    case OpFeedback(_, _) => SameBucketSpends(c, Step(c, op), op.now);
  }

  /** Times do not go backward from t on. */
  predicate Monotone(ops: seq<Op>, t: int) {
    && (forall i :: 0 <= i < |ops| ==> t <= ops[i].now)
    && (forall i, j :: 0 <= i < j < |ops| ==> ops[i].now <= ops[j].now)
  }

  function EndTime(ops: seq<Op>, t: int): int { if ops == [] then t else Last(ops).now }

  lemma {:induction false} RunSpends(c: Core, ops: seq<Op>, t: int)
    requires Valid(c) && c.x.cfg.nackSeqsPerSec > 0.0 && c.arq.tokensTime <= t && Monotone(ops, t)
    ensures var r, end := Run(c, ops), EndTime(ops, t);
      && r.x.cfg == c.x.cfg && r.arq.tokensTime <= end
      && r.arq.nacksSent as real + Allowed(r, end)
         <= c.arq.nacksSent as real + Allowed(c, t) + Recovery.Rate(c.x.cfg, end - t)
  {
    hide Step;
    if ops == [] {
      assert Recovery.Rate(c.x.cfg, 0) == 0.0;
    } else {
      RunSpends(c, Most(ops), t);
      var mid, u, v := Run(c, Most(ops)), EndTime(Most(ops), t), Last(ops).now;
      Recovery.AllowanceGrows(mid.arq, c.x.cfg, u, v);
      Recovery.RateAdds(c.x.cfg, u - t, v - u);
      assert (u - t) + (v - u) == v - t;
      StepSpends(mid, Last(ops));
    }
  }

  /** In any interval the receiver requests at most one burst plus the configured
      rate times the elapsed time. */
  lemma RequestRateBounded(c: Core, ops: seq<Op>, t: int)
    requires Valid(c) && c.x.cfg.nackSeqsPerSec > 0.0 && c.arq.tokensTime <= t && Monotone(ops, t)
    ensures (Run(c, ops).arq.nacksSent - c.arq.nacksSent) as real
      <= c.x.cfg.nackTokenBurst + Recovery.Rate(c.x.cfg, EndTime(ops, t) - t)
  {
    RunSpends(c, ops, t);
    Recovery.RefillBounds(c.arq.tokens, c.arq.tokensTime, c.x.cfg, t);
    var r := Run(c, ops);
    Recovery.RefillBounds(r.arq.tokens, r.arq.tokensTime, r.x.cfg, EndTime(ops, t));
  }
}
