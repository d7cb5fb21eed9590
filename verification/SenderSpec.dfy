/** The sender half of a flow (internal/flow/sender.go): sequence assignment, the
    retransmit-history ring, and the gates a NACK passes through. */
module SenderSpec {
  import opened Arith
  import opened Serial
  import opened FlowTypes
  import opened Bitrate

  datatype HistorySlot =
    | Vacant
    | Sent(
        seqno: u32,
        sourceTime: u64,
        payload: Bytes,
        frag: FragRole,
        transmitCount: nat,
        retried: bool,
        lastRetry: int)

  datatype SenderState = SenderState(
    cfg: Config,
    est: Estimator,
    ring: seq<HistorySlot>,
    started: bool,
    ssrc: u32,
    nextSeq: u32,
    txPath: int,
    dataBW: Ewma,
    retryBW: Ewma,
    outputs: seq<Output>,
    sent: nat,
    retransmitted: nat,
    skipped: nat,
    suppressed: nat,
    bandwidthSkipped: nat,
    exhausted: nat,
    ignored: nat)

  function Packet(s: SenderState, seqno: u32, sourceTime: u64, payload: Bytes, frag: FragRole, retransmit: bool): Output {
    SendMedia(s.txPath, MediaPacket(seqno, sourceTime, s.ssrc, payload, retransmit, frag, 0, 0, false))
  }

  /** The first push starts the RTT echo cadence. */
  function Started(s: SenderState, now: int): SenderState {
    if s.started then s
    else s.(started := true,
            outputs := if s.cfg.noRecovery then s.outputs
                       else s.outputs + [SetTimer(TimerRttEcho, now + RTT_ECHO_INTERVAL)])
  }

  /** Keep a packet for retransmission, unless the transport is one-way. */
  function Retain(s: SenderState, n: u32, t: u64, payload: Bytes, frag: FragRole): SenderState
    requires |s.ring| > 0
  {
    if s.cfg.noRecovery then s
    else s.(ring := s.ring[n % |s.ring| := Sent(n, t, payload, frag, 0, false, 0)])
  }

  /** Accept one payload for transmission. */
  function Push(s: SenderState, now: int, payload: Bytes, frag: FragRole,
                seqno: Option<u32>, sourceTime: Option<u64>): SenderState
    requires RingSize(|s.ring|)
  {
    var n := if seqno.Some? then seqno.value else s.nextSeq;
    var t := if sourceTime.Some? then sourceTime.value else NtpFromTimestamp(now);
    var s0 := Retain(Started(s, now), n, t, payload, frag);
    s0.(nextSeq := Add(n, 1),
        outputs := s0.outputs + [Packet(s0, n, t, payload, frag, false)],
        dataBW := s0.dataBW.Feed(now, WireBytes(|payload|)),
        sent := s0.sent + 1)
  }

  /** What the gates say about one requested sequence. */
  datatype Gate = Skipped | Suppressed | OverBandwidth | Exhausted | Resend

  function Spacing(s: SenderState): int {
    var rtt := s.est.LastClamped(s.cfg);
    if s.cfg.congestion.CongestionAggressive? then 2 * rtt else rtt
  }

  function Judge(s: SenderState, now: int, missing: u32): Gate
    requires |s.ring| > 0
  {
    var sl := s.ring[missing % |s.ring|];
    if !(sl.Sent? && sl.seqno == missing) then Skipped
    else if sl.retried && now - sl.lastRetry < Spacing(s) then Suppressed
    else if OverBudget(s.cfg.congestion, s.dataBW, s.retryBW, s.cfg.recoveryMaxBitrate) then OverBandwidth
    else if sl.transmitCount >= s.cfg.maxRetries then Exhausted
    else Resend
  }

  function Service(s: SenderState, now: int, missing: u32): SenderState
    requires |s.ring| > 0
  {
    match Judge(s, now, missing)
    case Skipped => s.(skipped := s.skipped + 1)
    case Suppressed => s.(suppressed := s.suppressed + 1)
    case OverBandwidth => s.(bandwidthSkipped := s.bandwidthSkipped + 1)
    case Exhausted => s.(exhausted := s.exhausted + 1)
    case Resend =>
      var i := missing % |s.ring|;
      var sl := s.ring[i];
      s.(ring := s.ring[i := sl.(lastRetry := now, retried := true, transmitCount := sl.transmitCount + 1)],
         outputs := s.outputs + [Packet(s, sl.seqno, sl.sourceTime, sl.payload, sl.frag, true)],
         retryBW := s.retryBW.Feed(now, WireBytes(|sl.payload|)),
         retransmitted := s.retransmitted + 1)
  }

  /** Service a request from its i-th sequence on, `emitted` having been re-sent. */
  function ServiceFrom(s: SenderState, now: int, missing: seq<u32>, i: nat, emitted: nat): SenderState
    requires |s.ring| > 0 && i <= |missing|
    decreases |missing| - i
  {
    if i == |missing| then s else
    var s' := Service(s, now, missing[i]);
    if !Judge(s, now, missing[i]).Resend? then ServiceFrom(s', now, missing, i + 1, emitted)
    else if emitted + 1 >= s.cfg.maxNacksPerLoop then s'
    else ServiceFrom(s', now, missing, i + 1, emitted + 1)
  }

  function ServiceNack(s: SenderState, now: int, missing: seq<u32>): SenderState
    requires |s.ring| > 0
  {
    ServiceFrom(s.(dataBW := s.dataBW.Feed(now, 0), retryBW := s.retryBW.Feed(now, 0)), now, missing, 0, 0)
  }

  function FeedFeedback(s: SenderState, now: int, fb: Feedback): SenderState
    requires |s.ring| > 0
  {
    match fb
    case RttEchoRequest(ssrc, t) =>
      s.(outputs := s.outputs + [SendFeedback(s.txPath, RttEchoResponse(ssrc, t, 0))])
    case RttEchoResponse(_, t, delay) => s.(est := s.est.Observe(now - NtpToTimestamp(t) - delay))
    case NackRequest(_, missing) => ServiceNack(s, now, missing)
    case OtherFeedback => s.(ignored := s.ignored + 1)
  }

  function HandleTimer(s: SenderState, now: int, id: TimerId): SenderState {
    if id.TimerRttEcho? && s.started then
      s.(outputs := s.outputs + [SendFeedback(s.txPath, RttEchoRequest(0, NtpFromTimestamp(now))),
                                 SetTimer(TimerRttEcho, now + RTT_ECHO_INTERVAL)])
    else s
  }

  function NewSender(cfg: Config, est: Estimator, ringSize: int, ssrc: u32, startSeq: u32): SenderState
    requires RingSize(ringSize)
  {
    SenderState(cfg, est, seq(ringSize, i => Vacant), false, ssrc, startSeq, 0, FRESH, FRESH, [], 0, 0, 0, 0, 0, 0, 0)
  }

  // ---- the retransmit budget ----

  /** Re-sends the history may still grant. */
  function Credit(ring: seq<HistorySlot>, maxRetries: nat): nat {
    if ring == [] then 0
    else Credit(ring[..|ring| - 1], maxRetries) + SlotCredit(ring[|ring| - 1], maxRetries)
  }

  function SlotCredit(sl: HistorySlot, maxRetries: nat): nat {
    if sl.Sent? && sl.transmitCount <= maxRetries then maxRetries - sl.transmitCount else 0
  }

  lemma {:induction false} CreditUpdate(ring: seq<HistorySlot>, i: nat, sl: HistorySlot, maxRetries: nat)
    requires i < |ring|
    ensures Credit(ring[i := sl], maxRetries) + SlotCredit(ring[i], maxRetries)
         == Credit(ring, maxRetries) + SlotCredit(sl, maxRetries)
  {
    var n := |ring| - 1;
    if i < n {
      CreditUpdate(ring[..n], i, sl, maxRetries);
      assert ring[i := sl][..n] == ring[..n][i := sl];
    } else {
      assert ring[i := sl][..n] == ring[..n];
    }
  }

  lemma {:induction false} CreditOfVacant(ring: seq<HistorySlot>, maxRetries: nat)
    requires forall i :: 0 <= i < |ring| ==> ring[i].Vacant?
    ensures Credit(ring, maxRetries) == 0
  {
    if ring != [] { CreditOfVacant(ring[..|ring| - 1], maxRetries); }
  }

  /** Every packet pushed may be re-sent MaxRetries times in all. */
  predicate WithinBudget(s: SenderState) {
    && RingSize(|s.ring|)
    && s.retransmitted + Credit(s.ring, s.cfg.maxRetries) <= s.cfg.maxRetries * s.sent
  }

  lemma PushWithinBudget(s: SenderState, now: int, payload: Bytes, frag: FragRole,
                         seqno: Option<u32>, sourceTime: Option<u64>)
    requires WithinBudget(s)
    ensures WithinBudget(Push(s, now, payload, frag, seqno, sourceTime))
  {
    hide NtpFromTimestamp, Credit;
    var n := if seqno.Some? then seqno.value else s.nextSeq;
    var t := if sourceTime.Some? then sourceTime.value else NtpFromTimestamp(now);
    CreditUpdate(s.ring, n % |s.ring|, Sent(n, t, payload, frag, 0, false, 0), s.cfg.maxRetries);
    MulSpread(s.cfg.maxRetries, s.sent);
  }

  lemma ServiceWithinBudget(s: SenderState, now: int, missing: u32)
    requires WithinBudget(s)
    ensures var r := Service(s, now, missing);
      && WithinBudget(r) && r.sent == s.sent && |r.ring| == |s.ring| && r.cfg == s.cfg
      && |r.outputs| == |s.outputs| + (if Judge(s, now, missing).Resend? then 1 else 0)
  {
    if Judge(s, now, missing).Resend? {
      var i := missing % |s.ring|;
      var sl := s.ring[i];
      CreditUpdate(s.ring, i, sl.(lastRetry := now, retried := true, transmitCount := sl.transmitCount + 1), s.cfg.maxRetries);
    }
  }

  /** Serving any request keeps the budget, and re-sends at most the per-pass cap. */
  lemma {:induction false} ServiceFromWithinBudget(s: SenderState, now: int, missing: seq<u32>, i: nat, emitted: nat)
    requires WithinBudget(s) && i <= |missing| && emitted < Max(s.cfg.maxNacksPerLoop, 1)
    ensures var r := ServiceFrom(s, now, missing, i, emitted);
      && WithinBudget(r) && r.sent == s.sent && r.cfg == s.cfg
      && |r.outputs| - |s.outputs| <= Max(s.cfg.maxNacksPerLoop, 1) - emitted
    decreases |missing| - i
  {
    if i < |missing| {
      ServiceWithinBudget(s, now, missing[i]);
      var s' := Service(s, now, missing[i]);
      if !Judge(s, now, missing[i]).Resend? {
        ServiceFromWithinBudget(s', now, missing, i + 1, emitted);
      } else if emitted + 1 < s.cfg.maxNacksPerLoop {
        ServiceFromWithinBudget(s', now, missing, i + 1, emitted + 1);
      }
    }
  }

  lemma NackWithinBudget(s: SenderState, now: int, missing: seq<u32>)
    requires WithinBudget(s)
    ensures var r := ServiceNack(s, now, missing);
      && WithinBudget(r) && r.sent == s.sent && r.cfg == s.cfg
      && |r.outputs| - |s.outputs| <= Max(s.cfg.maxNacksPerLoop, 1)
  {
    ServiceFromWithinBudget(s.(dataBW := s.dataBW.Feed(now, 0), retryBW := s.retryBW.Feed(now, 0)), now, missing, 0, 0);
  }

  /** One call into the sender. */
  datatype Op =
    | OpPush(now: int, payload: Bytes, frag: FragRole, seqno: Option<u32>, sourceTime: Option<u64>)
    | OpFeedback(now: int, fb: Feedback)
    | OpTimer(now: int, id: TimerId)

  function Step(s: SenderState, op: Op): SenderState
    requires RingSize(|s.ring|)
  {
    match op
    case OpPush(now, payload, frag, seqno, sourceTime) => Push(s, now, payload, frag, seqno, sourceTime)
    case OpFeedback(now, fb) => FeedFeedback(s, now, fb)
    case OpTimer(now, id) => HandleTimer(s, now, id)
  }

  lemma StepWithinBudget(s: SenderState, op: Op)
    requires WithinBudget(s)
    ensures WithinBudget(Step(s, op)) && Step(s, op).cfg == s.cfg
  {
    hide NtpFromTimestamp, NtpToTimestamp, TruncDiv, WithinBudget, ServiceNack;
    match op
    case OpPush(now, payload, frag, seqno, sourceTime) => PushWithinBudget(s, now, payload, frag, seqno, sourceTime);
    case OpFeedback(now, fb) => FeedbackWithinBudget(s, now, fb);
    case OpTimer(now, id) => TimerWithinBudget(s, now, id);
  }

  lemma FeedbackWithinBudget(s: SenderState, now: int, fb: Feedback)
    requires WithinBudget(s)
    ensures WithinBudget(FeedFeedback(s, now, fb)) && FeedFeedback(s, now, fb).cfg == s.cfg
  {
    hide NtpToTimestamp, TruncDiv, ServiceNack;
    if fb.NackRequest? { NackWithinBudget(s, now, fb.missing); }
  }

  lemma TimerWithinBudget(s: SenderState, now: int, id: TimerId)
    requires WithinBudget(s)
    ensures WithinBudget(HandleTimer(s, now, id)) && HandleTimer(s, now, id).cfg == s.cfg
  {
    hide NtpFromTimestamp;
  }

  /** The state after a run of calls. */
  function Run(s: SenderState, ops: seq<Op>): SenderState
    requires WithinBudget(s)
    ensures WithinBudget(Run(s, ops)) && Run(s, ops).cfg == s.cfg
    decreases |ops|
  {
    if ops == [] then s else
    StepWithinBudget(s, ops[0]);
    Run(Step(s, ops[0]), ops[1..])
  }

  /** Over any run of a new sender, whatever is requested and whenever, there are at
      most MaxRetries re-sends for each packet pushed. */
  lemma RetransmitsBounded(cfg: Config, est: Estimator, ringSize: int, ssrc: u32, startSeq: u32, ops: seq<Op>)
    requires RingSize(ringSize)
    ensures var s := NewSender(cfg, est, ringSize, ssrc, startSeq);
      && WithinBudget(s)
      && Run(s, ops).retransmitted <= cfg.maxRetries * Run(s, ops).sent
  {
    CreditOfVacant(NewSender(cfg, est, ringSize, ssrc, startSeq).ring, cfg.maxRetries);
  }
}
