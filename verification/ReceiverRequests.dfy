/** What the receiver asks for, told from its outputs: each pass over the missing queue
    sends one request for exactly the losses that are due, and over whole runs the
    requests sent are within the rate, the batch and the retries
    (internal/flow/receiver.go). */
module ReceiverRequests {
  import opened Serial
  import opened FlowTypes
  import opened PlayoutBuffer
  import opened ReceiverSpec
  import opened ReceiverProps
  import opened ReceiverTimers
  import opened ReceiverFeed
  import opened Recovery

  // ---- one pass ----

  /** The tokens at `now`: what was left, and the rate times the time since, up to one
      burst. Without a rate there is nothing to fill. */
  function Bucket(a: Arq, cfg: Config, now: int): real {
    var earned := Max(now - a.tokensTime, 0) as real * cfg.nackSeqsPerSec / 1000000.0;
    if a.tokens + earned <= cfg.nackTokenBurst then a.tokens + earned else cfg.nackTokenBurst
  }

  lemma BucketIs(a: Arq, cfg: Config, now: int)
    requires cfg.nackSeqsPerSec >= 0.0 && 0.0 <= a.tokens <= cfg.nackTokenBurst
    ensures Refill(a.tokens, a.tokensTime, cfg, now) == Bucket(a, cfg, now)
  {
    var dt := Max(now - a.tokensTime, 0) as real;
    assert dt / 1000000.0 * cfg.nackSeqsPerSec == dt * cfg.nackSeqsPerSec / 1000000.0;
    if now <= a.tokensTime { assert dt == 0.0; }
  }

  /** The losses a pass asks for: the open ones that are due, from the front of the queue,
      as many as one batch and the tokens allow. */
  function Asked(c: Core, now: int): seq<u32>
    requires |c.buf.ring| > 0
  {
    FirstOf(DueSeqs(OpenOnes(c.arq.missing, c.x, c.buf.ring, now), now), Budget(Bucket(c.arq, c.x.cfg, now), c.x.cfg))
  }

  /** One request for them all, back along the path the media came on; none if there is
      nothing to ask for. */
  function Request(c: Core, asked: seq<u32>): seq<Output> {
    if asked == [] then [] else [SendFeedback(c.lastPath, NackRequest(c.ssrc, asked))]
  }

  /** The queue after a pass: the open losses, those asked for put off and counted. */
  predicate Sweeps(c: Core, now: int, r: Arq)
    requires |c.buf.ring| > 0
  {
    var (open, budget) := (OpenOnes(c.arq.missing, c.x, c.buf.ring, now), Budget(Bucket(c.arq, c.x.cfg, now), c.x.cfg));
    && |r.missing| == |open| == r.missingCount
    && (forall j :: 0 <= j < |open| ==> r.missing[j] == Turned(open, j, budget, c.x, now))
    && r.nacksSent == c.arq.nacksSent + |Asked(c, now)|
    && r.lastFound == c.arq.lastFound && r.missingTotal == c.arq.missingTotal
  }

  lemma PassExact(c: Core, now: int)
    requires c.buf.Valid() && Recovery.Valid(c.arq, c.x.cfg) && (!c.started ==> c.arq.missing == [])
    ensures var r := NackPass(c, now);
      && r == c.(arq := r.arq, outputs := c.outputs + Request(c, Asked(c, now)))
      && Sweeps(c, now, r.arq) && r.arq.nackArmed == c.arq.nackArmed
  {
    hide OpenOnes, DueSeqs, Budget, Turned, Swept, Bucket, Refill, Credit;
    BucketIs(c.arq, c.x.cfg, now);
    PassSelects(c.arq, c.x, c.buf.ring, now);
    ProcessNacksValid(c.arq, c.x, c.buf.ring, now);
  }

  /** The NACK timer asks for what is due and is set again five milliseconds on for as long
      as any loss is open. */
  lemma NackTimerExact(c: Core, now: int, rescaled: int)
    requires ReceiverProps.Valid(c)
    ensures var r := HandleTimer(c, now, TimerNack, rescaled);
      && r == c.(arq := r.arq, outputs := r.outputs)
      && Sweeps(c, now, r.arq) && r.arq.nackArmed == (r.arq.missing != [])
      && r.outputs == c.outputs + Request(c, Asked(c, now))
                    + (if r.arq.missing != [] then [SetTimer(TimerNack, now + 5_000)] else [])
  {
    hide OpenOnes, DueSeqs, Budget, Turned, Bucket, Credit, NackPass;
    var c1 := c.(arq := c.arq.(nackArmed := false));
    assert Recovery.Valid(c1.arq, c1.x.cfg);
    PassExact(c1, now);
    BucketSame(c.arq, c1.arq, c.x.cfg, now);
  }

  lemma BucketSame(a: Arq, b: Arq, cfg: Config, now: int)
    requires b == a.(nackArmed := b.nackArmed)
    ensures Bucket(a, cfg, now) == Bucket(b, cfg, now)
  {
  }

  /** A tick delivers, and then asks for what is due. */
  lemma TickExact(c: Core, now: int)
    requires ReceiverProps.Valid(c)
    ensures var (d, r) := (DeliverDue(c, now), Tick(c, now));
      && d.buf.Valid() && Sweeps(d, now, r.arq)
      && r == d.(arq := r.arq, outputs := d.outputs + Request(d, Asked(d, now)))
  {
    hide OpenOnes, DueSeqs, Budget, Turned, Bucket, Credit, NackPass, Drain;
    PassExact(DeliverDue(c, now), now);
  }

  // ---- whole runs ----

  /** The sequences requested among some outputs, in the order they were sent. */
  function Requests(outs: seq<Output>): seq<u32> {
    if outs == [] then []
    else Requests(Most(outs)) + (if IsRequest(Last(outs)) then Last(outs).fb.missing else [])
  }

  predicate IsRequest(o: Output) { o.SendFeedback? && o.fb.NackRequest? }

  lemma {:induction false} RequestsConcat(a: seq<Output>, b: seq<Output>)
    ensures Requests(a + b) == Requests(a) + Requests(b)
    decreases |b|
  {
    if b == [] {
      assert a + b == a;
    } else {
      RequestsConcat(a, Most(b));
      assert Most(a + b) == a + Most(b) && Last(a + b) == Last(b);
      var last := if IsRequest(Last(b)) then Last(b).fb.missing else [];
      SeqAssoc(Requests(a), Requests(Most(b)), last);
    }
  }

  lemma {:induction false} NoRequests(outs: seq<Output>)
    requires forall i :: 0 <= i < |outs| ==> !IsRequest(outs[i])
    ensures Requests(outs) == []
  {
    if outs != [] { NoRequests(Most(outs)); }
  }

  lemma RequestSays(c: Core, asked: seq<u32>)
    ensures Requests(Request(c, asked)) == asked
  {
    if asked != [] {
      var o := SendFeedback(c.lastPath, NackRequest(c.ssrc, asked));
      assert Most([o]) == [] && Last([o]) == o;
    }
  }

  /** What a call asks for. */
  function AskedBy(c: Core, op: Op): seq<u32>
    requires c.buf.Valid()
  {
    match op
    case OpTimer(now, id, _) => if id.TimerNack? then Asked(c, now) else []
    case OpTick(now) => Asked(DeliverDue(c, now), now)
    case _ => []
  }

  function AllAsked(c: Core, ops: seq<Op>): seq<u32>
    requires ReceiverProps.Valid(c)
  {
    if ops == [] then [] else AllAsked(c, Most(ops)) + AskedBy(Run(c, Most(ops)), Last(ops))
  }

  lemma AppendQuiet(outs: seq<Output>, more: seq<Output>)
    requires forall i :: 0 <= i < |more| ==> !IsRequest(more[i])
    ensures Requests(outs + more) == Requests(outs)
  {
    hide Requests;
    RequestsConcat(outs, more);
    NoRequests(more);
  }

  lemma FeedRequests(c: Core, now: int, path: int, pkt: MediaPacket)
    requires ReceiverProps.Valid(c)
    ensures var r := FeedCore(c, now, path, pkt);
      Requests(r.outputs) == Requests(c.outputs) && r.arq.nacksSent == c.arq.nacksSent
  {
    hide FeedCore, Requests, Placed, Takes, Stores, Losses, Queued, Room, Revealed;
    var r := FeedCore(c, now, path, pkt);
    if Continues(c, pkt) {
      FeedExact(c, now, path, pkt);
      var due := Placed(c, now, pkt).0 + c.x.recoveryBuffer;
      var first := if Takes(c, now, pkt) && (!c.playoutArmed || due < c.playoutDeadline) then [SetTimer(TimerPlayout, due)] else [];
      var second := if Takes(c, now, pkt) && r.arq.missing != [] && !c.arq.nackArmed then [SetTimer(TimerNack, now + 5_000)] else [];
      AppendQuiet(c.outputs, first);
      AppendQuiet(c.outputs + first, second);
    } else {
      FlowBegins(c, now, path, pkt);
      if !pkt.retransmit { BeginsQuietly(c, now, path, pkt, r); }
    }
  }

  lemma BeginsQuietly(c: Core, now: int, path: int, pkt: MediaPacket, r: Core)
    requires BeginsTo(c, now, path, pkt, r)
    ensures Requests(r.outputs) == Requests(c.outputs) && r.arq.nacksSent == c.arq.nacksSent
  {
    hide Requests;
    var due := now + c.x.recoveryBuffer;
    var first := if c.started || !c.playoutArmed || due < c.playoutDeadline then [SetTimer(TimerPlayout, due)] else [];
    var second := if c.x.cfg.noRecovery then [] else [SetTimer(TimerRttEcho, now + 100_000)];
    AppendQuiet(c.outputs, first);
    AppendQuiet(c.outputs + first, second);
  }

  lemma DeliverQuietly(c: Core, now: int)
    requires c.buf.Valid()
    ensures var r := DeliverDue(c, now);
      Requests(r.outputs) == Requests(c.outputs) && r == c.(buf := r.buf, playoutArmed := r.playoutArmed,
        playoutDeadline := r.playoutDeadline, outputs := r.outputs)
  {
    hide Requests, Drain;
    if c.started {
      var wake := Drain(c.buf, now).1;
      if wake.WakeAt? { AppendQuiet(c.outputs, [SetTimer(TimerPlayout, wake.deadline)]); }
      else { AppendQuiet(c.outputs, [ClearTimer(TimerPlayout)]); }
    }
  }

  lemma StepRequests(c: Core, op: Op)
    requires ReceiverProps.Valid(c)
    ensures var r := Step(c, op);
      && Requests(r.outputs) == Requests(c.outputs) + AskedBy(c, op)
      && r.arq.nacksSent == c.arq.nacksSent + |AskedBy(c, op)|
  {
    hide FeedCore, Requests, Asked, DeliverDue, NackPass, NtpFromTimestamp, NtpToTimestamp, TruncDiv;
    match op
    case OpFeed(now, path, pkt) => FeedRequests(c, now, path, pkt);
    case OpTimer(now, id, rescaled) => TimerRequests(c, now, id, rescaled);
    case OpTick(now) =>
      TickExact(c, now);
      DeliverQuietly(c, now);
      var d := DeliverDue(c, now);
      RequestsConcat(d.outputs, Request(d, Asked(d, now)));
      RequestSays(d, Asked(d, now));
    case OpFeedback(now, fb) =>
      if fb.RttEchoRequest? { AppendQuiet(c.outputs, [SendFeedback(c.lastPath, RttEchoResponse(fb.echoSsrc, fb.timestamp, 0))]); }
  }

  lemma TimerRequests(c: Core, now: int, id: TimerId, rescaled: int)
    requires ReceiverProps.Valid(c)
    ensures var r := HandleTimer(c, now, id, rescaled);
      && Requests(r.outputs) == Requests(c.outputs) + (if id.TimerNack? then Asked(c, now) else [])
      && r.arq.nacksSent == c.arq.nacksSent + (if id.TimerNack? then |Asked(c, now)| else 0)
  {
    hide Requests, Asked, DeliverDue, NackPass, NtpFromTimestamp;
    match id
    case TimerPlayout => DeliverQuietly(c.(playoutArmed := false), now);
    case TimerNack =>
      NackTimerExact(c, now, rescaled);
      var said := c.outputs + Request(c, Asked(c, now));
      RequestsConcat(c.outputs, Request(c, Asked(c, now)));
      RequestSays(c, Asked(c, now));
      AppendQuiet(said, [SetTimer(TimerNack, now + 5_000)]);
      AppendQuiet(said, []);
    case TimerRttEcho =>
      AppendQuiet(c.outputs, [SendFeedback(c.lastPath, RttEchoRequest(0, NtpFromTimestamp(now))),
                              SetTimer(TimerRttEcho, now + RTT_ECHO_INTERVAL)]);
  }

  /** Over any run the sequences requested among the outputs are exactly those its passes
      found due, in order, and each is counted once. */
  lemma {:induction false} RunRequests(c: Core, ops: seq<Op>)
    requires ReceiverProps.Valid(c)
    ensures var r := Run(c, ops);
      && Requests(r.outputs) == Requests(c.outputs) + AllAsked(c, ops)
      && r.arq.nacksSent == c.arq.nacksSent + |AllAsked(c, ops)|
  {
    hide Step, Requests, AskedBy;
    if ops != [] {
      RunRequests(c, Most(ops));
      StepRequests(Run(c, Most(ops)), Last(ops));
      SeqAssoc(Requests(c.outputs), AllAsked(c, Most(ops)), AskedBy(Run(c, Most(ops)), Last(ops)));
    }
  }

  /** For non-decreasing time, the sequences in the requests sent in any interval are at
      most one burst plus the configured rate times the elapsed time. */
  lemma SentRateBounded(c: Core, ops: seq<Op>, t: int)
    requires ReceiverProps.Valid(c) && c.x.cfg.nackSeqsPerSec > 0.0 && c.arq.tokensTime <= t && Monotone(ops, t)
    ensures (|Requests(Run(c, ops).outputs)| - |Requests(c.outputs)|) as real
      <= c.x.cfg.nackTokenBurst + Recovery.Rate(c.x.cfg, EndTime(ops, t) - t)
  {
    hide *;
    RunRequests(c, ops);
    RequestRateBounded(c, ops, t);
  }

  /** From a new receiver, the sequences in the requests sent are at most MaxRetries for
      each loss detected. */
  lemma SentWithinRetries(cfg: Config, est: Estimator, recoveryBuffer: int, ringSize: int, ops: seq<Op>)
    requires RingSize(ringSize) && cfg.nackSeqsPerSec >= 0.0 && cfg.nackTokenBurst >= 0.0
    ensures var c := NewCore(cfg, est, recoveryBuffer, ringSize);
      && ReceiverProps.Valid(c)
      && |Requests(Run(c, ops).outputs)| <= cfg.maxRetries * Run(c, ops).arq.missingTotal
  {
    hide Run, Requests, Credit;
    NewValid(cfg, est, recoveryBuffer, ringSize);
    var c := NewCore(cfg, est, recoveryBuffer, ringSize);
    RunRequests(c, ops);
    assert Requests([]) == [] by { NoRequests([]); }
    RunWithinBudget(c, ops);
  }

  /** Feedback that is not an echo is not for a receiver. */
  function Stray(ops: seq<Op>): nat {
    if ops == [] then 0
    else Stray(Most(ops)) +
         (if Last(ops).OpFeedback? && !Last(ops).fb.RttEchoRequest? && !Last(ops).fb.RttEchoResponse? then 1 else 0)
  }

  lemma StepStray(c: Core, op: Op)
    requires ReceiverProps.Valid(c)
    ensures Step(c, op).ignoredFeedback == c.ignoredFeedback + Stray([op])
  {
    hide FeedCore, DeliverDue, NackPass, Asked, Sweeps, NtpFromTimestamp, NtpToTimestamp, TruncDiv;
    assert Most([op]) == [];
    match op
    case OpFeed(now, path, pkt) => if Continues(c, pkt) { FeedExact(c, now, path, pkt); } else { FlowBegins(c, now, path, pkt); }
    case OpTimer(now, id, rescaled) =>
      if id.TimerPlayout? { DeliverQuietly(c.(playoutArmed := false), now); }
      if id.TimerNack? { NackTimerExact(c, now, rescaled); }
    case OpTick(now) =>
      TickExact(c, now);
      DeliverQuietly(c, now);
    case OpFeedback(_, _) =>
  }

  /** Over any run exactly those are counted as ignored. */
  lemma {:induction false} RunStray(c: Core, ops: seq<Op>)
    requires ReceiverProps.Valid(c)
    ensures Run(c, ops).ignoredFeedback == c.ignoredFeedback + Stray(ops)
  {
    hide Step;
    if ops != [] {
      RunStray(c, Most(ops));
      StepStray(Run(c, Most(ops)), Last(ops));
    }
  }
}
