/** The sender over whole runs: the bandwidth gate reopens, re-sends of a retained
    packet are spaced and counted, and the echo cadence never stops
    (internal/flow/sender.go). */
module SenderRuns {
  import opened Arith
  import opened Serial
  import opened FlowTypes
  import opened Bitrate
  import opened SenderSpec

  // ---- a shut gate reopens ----

  /** The instants at which requests are served: each refreshes the averages. */
  function Passes(ops: seq<Op>): seq<int>
    decreases |ops|
  {
    if ops == [] then []
    else (if IsNack(ops[0]) then [ops[0].now] else []) + Passes(ops[1..])
  }

  predicate IsNack(op: Op) { op.OpFeedback? && op.fb.NackRequest? }

  predicate Quiet(ops: seq<Op>) { forall i :: 0 <= i < |ops| ==> !ops[i].OpPush? }

  /** If the call is a request, it finds the bandwidth gate shut. */
  predicate FindsShut(s: SenderState, op: Op) {
    IsNack(op) ==>
      OverBudget(s.cfg.congestion, s.dataBW.Feed(op.now, 0), s.retryBW.Feed(op.now, 0), s.cfg.recoveryMaxBitrate)
  }

  predicate ShutThroughout(s: SenderState, ops: seq<Op>)
    requires WithinBudget(s)
    decreases |ops|
  {
    ops == [] ||
    (FindsShut(s, ops[0]) && (StepWithinBudget(s, ops[0]); ShutThroughout(Step(s, ops[0]), ops[1..])))
  }

  /** Behind a shut gate a request sends nothing, and so feeds the averages nothing. */
  lemma {:induction false} ShutSendsNothing(s: SenderState, now: int, missing: seq<u32>, i: nat, emitted: nat)
    requires |s.ring| > 0 && i <= |missing|
    requires OverBudget(s.cfg.congestion, s.dataBW, s.retryBW, s.cfg.recoveryMaxBitrate)
    ensures var r := ServiceFrom(s, now, missing, i, emitted);
      r.dataBW == s.dataBW && r.retryBW == s.retryBW && r.outputs == s.outputs && r.cfg == s.cfg
    decreases |missing| - i
  {
    hide OverBudget;
    if i < |missing| { ShutSendsNothing(Service(s, now, missing[i]), now, missing, i + 1, emitted); }
  }

  lemma ShutStep(s: SenderState, op: Op)
    requires WithinBudget(s) && !op.OpPush? && FindsShut(s, op)
    ensures var r := Step(s, op);
      if IsNack(op) then r.dataBW == s.dataBW.Feed(op.now, 0) && r.retryBW == s.retryBW.Feed(op.now, 0)
      else r.dataBW == s.dataBW && r.retryBW == s.retryBW
  {
    hide OverBudget, NtpFromTimestamp, NtpToTimestamp, TruncDiv, ServiceFrom;
    if IsNack(op) {
      ShutSendsNothing(s.(dataBW := s.dataBW.Feed(op.now, 0), retryBW := s.retryBW.Feed(op.now, 0)),
                       op.now, op.fb.missing, 0, 0);
    }
  }

  /** While every request finds the gate shut, requests only refresh the averages. */
  lemma {:induction false} ShutRefreshes(s: SenderState, ops: seq<Op>)
    requires WithinBudget(s) && Quiet(ops) && ShutThroughout(s, ops)
    ensures Run(s, ops).dataBW == Refresh(s.dataBW, Passes(ops))
    ensures Run(s, ops).retryBW == Refresh(s.retryBW, Passes(ops))
    ensures Passes(ops) != [] ==>
      OverBudget(s.cfg.congestion, Refresh(s.dataBW, Passes(ops)), Refresh(s.retryBW, Passes(ops)), s.cfg.recoveryMaxBitrate)
    decreases |ops|
  {
    hide Step, Credit, OverBudget;
    if ops != [] {
      var rest := Passes(ops[1..]);
      ShutStep(s, ops[0]);
      StepWithinBudget(s, ops[0]);
      ShutRefreshes(Step(s, ops[0]), ops[1..]);
      assert IsNack(ops[0]) ==> Passes(ops)[0] == ops[0].now && Passes(ops)[1..] == rest;
      assert !IsNack(ops[0]) ==> Passes(ops) == rest;
    }
  }

  /** Whenever requests come and whatever they ask for, if nothing is pushed and they
      close the averaging windows often enough, one of them finds the gate open. */
  lemma GateReopens(s: SenderState, ops: seq<Op>)
    requires WithinBudget(s) && Quiet(ops) && Passes(ops) != [] && s.cfg.recoveryMaxBitrate >= 0
    requires var t := Passes(ops)[0]; DrainsGate(s.cfg.congestion, s.dataBW.Awake(t), s.retryBW.Awake(t), Passes(ops))
    ensures !ShutThroughout(s, ops)
  {
    hide OverBudget, DrainsGate, Refresh, WithinBudget, Passes, Run;
    if ShutThroughout(s, ops) {
      ShutRefreshes(s, ops);
      Bitrate.GateReopens(s.cfg.congestion, s.dataBW, s.retryBW, Passes(ops), s.cfg.recoveryMaxBitrate);
    }
  }

  /** The averages the gate reads were refreshed at `since`. */
  predicate UpToDate(s: SenderState, since: int) {
    && s.dataBW.seeded && s.retryBW.seeded
    && Current(s.dataBW.slow, since, SLOW_WINDOW) && Current(s.dataBW.fast, since, FAST_WINDOW)
    && Current(s.retryBW.fast, since, FAST_WINDOW)
  }

  /** Closings that certainly drain every average the gate reads. */
  function MostClosings(s: SenderState): nat {
    Max(ReopenTime(s.dataBW.slow, SLOW_WINDOW),
        Max(ReopenTime(s.dataBW.fast, FAST_WINDOW), ReopenTime(s.retryBW.fast, FAST_WINDOW)))
  }

  /** So a receiver that keeps asking, at most `gap` apart, is heard within a time
      that depends on the rates at the start alone. */
  lemma GateReopensInTime(s: SenderState, ops: seq<Op>, since: int, gap: nat)
    requires WithinBudget(s) && Quiet(ops) && Passes(ops) != [] && s.cfg.recoveryMaxBitrate >= 0
    requires UpToDate(s, since) && Dense(since, Passes(ops), gap)
    requires End(since, Passes(ops)) - since >= SLOW_WINDOW + Mul(MostClosings(s), SLOW_WINDOW + gap)
    ensures !ShutThroughout(s, ops)
  {
    hide WithinBudget, Passes, ReopenTime, Closings, Mul, ShutThroughout, Quiet;
    var ts, m := Passes(ops), MostClosings(s);
    EnoughClosings(s.dataBW.slow, since, ts, SLOW_WINDOW, gap, m);
    EnoughClosings(s.dataBW.fast, since, ts, FAST_WINDOW, gap, m);
    EnoughClosings(s.retryBW.fast, since, ts, FAST_WINDOW, gap, m);
    GateReopens(s, ops);
  }

  lemma EnoughClosings(w: Window, since: int, ts: seq<int>, span: int, gap: nat, m: nat)
    requires 0 < span <= SLOW_WINDOW && Current(w, since, span) && Dense(since, ts, gap)
    requires End(since, ts) - since >= SLOW_WINDOW + Mul(m, SLOW_WINDOW + gap)
    ensures Closings(w, ts, span) >= m
  {
    hide Closings, End;
    var k := Closings(w, ts, span);
    ClosingsInTime(w, since, ts, span, gap);
    if k < m {
      MulMono(k, m, span + gap);
      MulMono(span + gap, SLOW_WINDOW + gap, m);
      MulIs(m, SLOW_WINDOW + gap);
      MulIs(m, span + gap);
    }
  }

  // ---- re-sends of a retained packet ----

  /** What happens to retained packets: one is kept, or one is re-sent at an instant
      when the gate asked for some spacing. */
  datatype Event =
    | Kept(seqno: u32, sourceTime: u64, payload: Bytes, frag: FragRole)
    | Resent(seqno: u32, at: int, spacing: int)

  /** The packet last kept in slot i of n. */
  function Occupant(h: seq<Event>, i: nat, n: nat): (r: Option<Event>)
    requires n > 0
    ensures r.Some? ==> r.value.Kept? && r.value.seqno % n == i
  {
    if h == [] then None
    else if Last(h).Kept? && Last(h).seqno % n == i then Some(Last(h))
    else Occupant(Most(h), i, n)
  }

  /** When q was last re-sent since it was kept. */
  function LastResend(h: seq<Event>, q: u32): Option<int> {
    if h == [] then None
    else if Last(h).seqno != q then LastResend(Most(h), q)
    else if Last(h).Kept? then None
    else Some(Last(h).at)
  }

  /** How often q has been re-sent since it was kept. */
  function Resends(h: seq<Event>, q: u32): nat {
    if h == [] then 0
    else if Last(h).seqno != q then Resends(Most(h), q)
    else if Last(h).Kept? then 0
    else 1 + Resends(Most(h), q)
  }

  function ServedFrom(s: SenderState, now: int, missing: seq<u32>, i: nat, emitted: nat): seq<Event>
    requires |s.ring| > 0 && i <= |missing|
    decreases |missing| - i
  {
    if i == |missing| then [] else
    var s' := Service(s, now, missing[i]);
    if !Judge(s, now, missing[i]).Resend? then ServedFrom(s', now, missing, i + 1, emitted)
    else [Resent(missing[i], now, Spacing(s))] +
         (if emitted + 1 >= s.cfg.maxNacksPerLoop then [] else ServedFrom(s', now, missing, i + 1, emitted + 1))
  }

  function Happens(s: SenderState, op: Op): seq<Event>
    requires RingSize(|s.ring|)
  {
    match op
    case OpPush(now, payload, frag, seqno, sourceTime) =>
      if s.cfg.noRecovery then [] else
      [Kept(if seqno.Some? then seqno.value else s.nextSeq,
            if sourceTime.Some? then sourceTime.value else NtpFromTimestamp(now), payload, frag)]
    case OpFeedback(now, fb) =>
      if fb.NackRequest?
      then ServedFrom(s.(dataBW := s.dataBW.Feed(now, 0), retryBW := s.retryBW.Feed(now, 0)), now, fb.missing, 0, 0)
      else []
    case OpTimer(_, _) => []
  }

  function Trace(s: SenderState, ops: seq<Op>): seq<Event>
    requires WithinBudget(s)
    decreases |ops|
  {
    if ops == [] then [] else
    StepWithinBudget(s, ops[0]);
    Happens(s, ops[0]) + Trace(Step(s, ops[0]), ops[1..])
  }

  /** What slot i of n must hold, by what happened. */
  function SlotBy(h: seq<Event>, i: nat, n: nat): HistorySlot
    requires n > 0
  {
    match Occupant(h, i, n)
    case None => Vacant
    case Some(e) =>
      var last := LastResend(h, e.seqno);
      Sent(e.seqno, e.sourceTime, e.payload, e.frag, Resends(h, e.seqno), last.Some?, if last.Some? then last.value else 0)
  }

  /** The history ring is exactly what the events say. */
  predicate Logged(s: SenderState, h: seq<Event>) {
    |s.ring| > 0 && forall i :: 0 <= i < |s.ring| ==> s.ring[i] == SlotBy(h, i, |s.ring|)
  }

  /** Every re-send came at least its spacing after the one before, and within the
      retries of the packet kept. */
  predicate Paced(h: seq<Event>, maxRetries: nat) {
    forall j :: 0 <= j < |h| && h[j].Resent? ==> RightlyResent(h[..j], h[j], maxRetries)
  }

  predicate RightlyResent(h: seq<Event>, e: Event, maxRetries: nat)
    requires e.Resent?
  {
    && (LastResend(h, e.seqno).Some? ==> e.at - LastResend(h, e.seqno).value >= e.spacing)
    && Resends(h, e.seqno) < maxRetries
  }

  lemma PacedAppend(h: seq<Event>, e: Event, maxRetries: nat)
    requires Paced(h, maxRetries) && (e.Resent? ==> RightlyResent(h, e, maxRetries))
    ensures Paced(h + [e], maxRetries)
  {
    hide RightlyResent;
    forall j | 0 <= j < |h + [e]| && (h + [e])[j].Resent? ensures RightlyResent((h + [e])[..j], (h + [e])[j], maxRetries) {
      assert (h + [e])[..j] == h[..j];
      if j == |h| { assert h[..j] == h; }
    }
  }

  lemma AppendLast(h: seq<Event>, e: Event)
    ensures Most(h + [e]) == h && Last(h + [e]) == e
  {
  }

  /** A re-send changes the slot of its packet and no other. */
  lemma SlotAfterResend(h: seq<Event>, e: Event, i: nat, n: nat)
    requires n > 0 && e.Resent?
    ensures var (sl, r) := (SlotBy(h, i, n), SlotBy(h + [e], i, n));
      if sl.Sent? && sl.seqno == e.seqno
      then r == sl.(lastRetry := e.at, retried := true, transmitCount := sl.transmitCount + 1)
      else r == sl
  {
    AppendLast(h, e);
  }

  /** Keeping a packet fills its slot afresh and no other. */
  lemma SlotAfterKeep(h: seq<Event>, e: Event, i: nat, n: nat)
    requires n > 0 && e.Kept?
    ensures SlotBy(h + [e], i, n) ==
      if e.seqno % n == i then Sent(e.seqno, e.sourceTime, e.payload, e.frag, 0, false, 0) else SlotBy(h, i, n)
  {
    AppendLast(h, e);
  }

  lemma ResendLogged(s: SenderState, h: seq<Event>, now: int, missing: u32)
    requires Logged(s, h) && Paced(h, s.cfg.maxRetries) && Judge(s, now, missing).Resend?
    ensures var h' := h + [Resent(missing, now, Spacing(s))];
      Logged(Service(s, now, missing), h') && Paced(h', s.cfg.maxRetries)
  {
    hide OverBudget, Spacing;
    var (e, n) := (Resent(missing, now, Spacing(s)), |s.ring|);
    assert s.ring[missing % n] == SlotBy(h, missing % n, n);
    PacedAppend(h, e, s.cfg.maxRetries);
    hide SlotBy;
    forall i | 0 <= i < n ensures Service(s, now, missing).ring[i] == SlotBy(h + [e], i, n) {
      SlotAfterResend(h, e, i, n);
      SlotIsOwn(h, i, n);
    }
  }

  lemma SlotIsOwn(h: seq<Event>, i: nat, n: nat)
    requires n > 0
    ensures SlotBy(h, i, n).Sent? ==> SlotBy(h, i, n).seqno % n == i
  {
  }

  lemma {:induction false} ServedLogged(s: SenderState, h: seq<Event>, now: int, missing: seq<u32>, i: nat, emitted: nat)
    requires |s.ring| > 0 && Logged(s, h) && Paced(h, s.cfg.maxRetries) && i <= |missing|
    ensures var h' := h + ServedFrom(s, now, missing, i, emitted);
      Logged(ServiceFrom(s, now, missing, i, emitted), h') && Paced(h', s.cfg.maxRetries)
    decreases |missing| - i
  {
    hide Logged, Paced, Judge, Spacing;
    if i == |missing| {
      assert h + [] == h;
    } else {
      var s' := Service(s, now, missing[i]);
      ServiceKeeps(s, now, missing[i]);
      if !Judge(s, now, missing[i]).Resend? {
        RefusalLogged(s, h, now, missing[i]);
        ServedLogged(s', h, now, missing, i + 1, emitted);
      } else {
        ResendLogged(s, h, now, missing[i]);
        var h' := h + [Resent(missing[i], now, Spacing(s))];
        if emitted + 1 < s.cfg.maxNacksPerLoop {
          ServedLogged(s', h', now, missing, i + 1, emitted + 1);
          assert h' + ServedFrom(s', now, missing, i + 1, emitted + 1) == h + ServedFrom(s, now, missing, i, emitted);
        } else {
          assert h' == h + ServedFrom(s, now, missing, i, emitted);
        }
      }
    }
  }

  lemma ServiceKeeps(s: SenderState, now: int, missing: u32)
    requires |s.ring| > 0
    ensures var r := Service(s, now, missing); r.cfg == s.cfg && |r.ring| == |s.ring|
  {
    hide Judge;
  }

  lemma RefusalLogged(s: SenderState, h: seq<Event>, now: int, missing: u32)
    requires Logged(s, h) && !Judge(s, now, missing).Resend?
    ensures Logged(Service(s, now, missing), h)
  {
    hide Judge, SlotBy;
  }

  lemma PushLogged(s: SenderState, h: seq<Event>, now: int, payload: Bytes, frag: FragRole,
                   seqno: Option<u32>, sourceTime: Option<u64>)
    requires RingSize(|s.ring|) && Logged(s, h) && Paced(h, s.cfg.maxRetries)
    ensures var h' := h + Happens(s, OpPush(now, payload, frag, seqno, sourceTime));
      Logged(Push(s, now, payload, frag, seqno, sourceTime), h') && Paced(h', s.cfg.maxRetries)
  {
    hide NtpFromTimestamp, Paced;
    var n := if seqno.Some? then seqno.value else s.nextSeq;
    var t := if sourceTime.Some? then sourceTime.value else NtpFromTimestamp(now);
    if s.cfg.noRecovery {
      assert h + [] == h;
    } else {
      KeepLogged(s, h, Kept(n, t, payload, frag));
      KeptPaced(h, Kept(n, t, payload, frag), s.cfg.maxRetries);
    }
  }

  lemma KeepLogged(s: SenderState, h: seq<Event>, e: Event)
    requires Logged(s, h) && e.Kept?
    ensures var slot := Sent(e.seqno, e.sourceTime, e.payload, e.frag, 0, false, 0);
      Logged(s.(ring := s.ring[e.seqno % |s.ring| := slot]), h + [e])
  {
    hide SlotBy;
    forall i | 0 <= i < |s.ring| { SlotAfterKeep(h, e, i, |s.ring|); }
  }

  lemma KeptPaced(h: seq<Event>, e: Event, maxRetries: nat)
    requires Paced(h, maxRetries) && e.Kept?
    ensures Paced(h + [e], maxRetries)
  {
    PacedAppend(h, e, maxRetries);
  }

  lemma StepLogged(s: SenderState, h: seq<Event>, op: Op)
    requires WithinBudget(s) && Logged(s, h) && Paced(h, s.cfg.maxRetries)
    ensures var h' := h + Happens(s, op);
      Logged(Step(s, op), h') && Paced(h', s.cfg.maxRetries)
  {
    hide NtpFromTimestamp, NtpToTimestamp, TruncDiv, ServiceFrom, ServedFrom, Paced, SlotBy, Push;
    assert h + [] == h;
    match op
    case OpPush(now, payload, frag, seqno, sourceTime) => PushLogged(s, h, now, payload, frag, seqno, sourceTime);
    case OpFeedback(now, fb) =>
      if fb.NackRequest? {
        ServedLogged(s.(dataBW := s.dataBW.Feed(now, 0), retryBW := s.retryBW.Feed(now, 0)), h, now, fb.missing, 0, 0);
      }
    case OpTimer(_, _) =>
  }

  lemma {:induction false} RunLogged(s: SenderState, h: seq<Event>, ops: seq<Op>)
    requires WithinBudget(s) && Logged(s, h) && Paced(h, s.cfg.maxRetries)
    ensures Logged(Run(s, ops), h + Trace(s, ops)) && Paced(h + Trace(s, ops), s.cfg.maxRetries)
    decreases |ops|
  {
    hide Step, Logged, Paced, Happens, Credit;
    if ops == [] {
      assert h + [] == h;
    } else {
      StepWithinBudget(s, ops[0]);
      StepLogged(s, h, ops[0]);
      RunLogged(Step(s, ops[0]), h + Happens(s, ops[0]), ops[1..]);
      assert h + Happens(s, ops[0]) + Trace(Step(s, ops[0]), ops[1..]) == h + Trace(s, ops);
    }
  }

  /** Over any run of a new sender, two successive re-sends of a retained packet are at
      least the spacing apart that the later one asked for, and a retained packet is
      re-sent at most MaxRetries times. */
  lemma ResendsPaced(cfg: Config, est: Estimator, ringSize: int, ssrc: u32, startSeq: u32, ops: seq<Op>)
    requires RingSize(ringSize)
    ensures var s := NewSender(cfg, est, ringSize, ssrc, startSeq);
      WithinBudget(s) && Paced(Trace(s, ops), cfg.maxRetries)
  {
    var s := NewSender(cfg, est, ringSize, ssrc, startSeq);
    CreditOfVacant(s.ring, cfg.maxRetries);
    RunLogged(s, [], ops);
    assert [] + Trace(s, ops) == Trace(s, ops);
  }

  // ---- the trace is what leaves ----

  /** The sequences re-sent among some outputs, and among some events. */
  function Leaving(outs: seq<Output>): seq<u32> {
    if outs == [] then []
    else Leaving(Most(outs)) + (if Last(outs).SendMedia? && Last(outs).pkt.retransmit then [Last(outs).pkt.seqno] else [])
  }

  function ResentSeqs(h: seq<Event>): seq<u32>
    decreases |h|
  {
    if h == [] then [] else (if h[0].Resent? then [h[0].seqno] else []) + ResentSeqs(h[1..])
  }

  lemma LeavingAppend(outs: seq<Output>, o: Output)
    ensures Leaving(outs + [o]) == Leaving(outs) + (if o.SendMedia? && o.pkt.retransmit then [o.pkt.seqno] else [])
  {
    assert Most(outs + [o]) == outs;
  }

  lemma {:induction false} ServedLeaves(s: SenderState, now: int, missing: seq<u32>, i: nat, emitted: nat)
    requires |s.ring| > 0 && i <= |missing|
    ensures Leaving(ServiceFrom(s, now, missing, i, emitted).outputs)
         == Leaving(s.outputs) + ResentSeqs(ServedFrom(s, now, missing, i, emitted))
    decreases |missing| - i
  {
    hide Leaving, OverBudget, Spacing;
    if i < |missing| {
      var s' := Service(s, now, missing[i]);
      var resend := Judge(s, now, missing[i]).Resend?;
      if resend { LeavingAppend(s.outputs, Last(s'.outputs)); }
      if !resend {
        ServedLeaves(s', now, missing, i + 1, emitted);
      } else if emitted + 1 < s.cfg.maxNacksPerLoop {
        ServedLeaves(s', now, missing, i + 1, emitted + 1);
      }
    }
  }

  lemma StepLeaves(s: SenderState, op: Op)
    requires RingSize(|s.ring|)
    ensures Leaving(Step(s, op).outputs) == Leaving(s.outputs) + ResentSeqs(Happens(s, op))
  {
    hide NtpFromTimestamp, NtpToTimestamp, TruncDiv, ServiceFrom, ServedFrom, Leaving;
    match op
    case OpPush(now, payload, frag, seqno, sourceTime) => PushLeaves(s, now, payload, frag, seqno, sourceTime);
    case OpFeedback(now, fb) =>
      match fb {
        case NackRequest(_, missing) =>
          ServedLeaves(s.(dataBW := s.dataBW.Feed(now, 0), retryBW := s.retryBW.Feed(now, 0)), now, missing, 0, 0);
        case RttEchoRequest(ssrc, t) => LeavingAppend(s.outputs, SendFeedback(s.txPath, RttEchoResponse(ssrc, t, 0)));
        case _ =>
      }
    case OpTimer(now, id) =>
      if id.TimerRttEcho? && s.started {
        var echo := SendFeedback(s.txPath, RttEchoRequest(0, NtpFromTimestamp(now)));
        var timer := SetTimer(TimerRttEcho, now + RTT_ECHO_INTERVAL);
        LeavingAppend(s.outputs, echo);
        LeavingAppend(s.outputs + [echo], timer);
        assert s.outputs + [echo, timer] == s.outputs + [echo] + [timer];
      }
  }

  lemma PushLeaves(s: SenderState, now: int, payload: Bytes, frag: FragRole, seqno: Option<u32>, sourceTime: Option<u64>)
    requires RingSize(|s.ring|)
    ensures Leaving(Push(s, now, payload, frag, seqno, sourceTime).outputs) == Leaving(s.outputs)
    ensures ResentSeqs(Happens(s, OpPush(now, payload, frag, seqno, sourceTime))) == []
  {
    hide NtpFromTimestamp, Leaving;
    var s0 := Started(s, now);
    var out := Push(s, now, payload, frag, seqno, sourceTime).outputs;
    LeavingAppend(s.outputs, SetTimer(TimerRttEcho, now + RTT_ECHO_INTERVAL));
    LeavingAppend(s0.outputs, Last(out));
    assert out == s0.outputs + [Last(out)];
  }

  lemma {:induction false} ResentConcat(a: seq<Event>, b: seq<Event>)
    ensures ResentSeqs(a + b) == ResentSeqs(a) + ResentSeqs(b)
    decreases |a|
  {
    if a == [] {
      assert a + b == b;
    } else {
      ResentConcat(a[1..], b);
      var first := if a[0].Resent? then [a[0].seqno] else [];
      assert (a + b)[0] == a[0] && (a + b)[1..] == a[1..] + b;
      assert first + (ResentSeqs(a[1..]) + ResentSeqs(b)) == (first + ResentSeqs(a[1..])) + ResentSeqs(b);
    }
  }

  /** The re-sends of the trace are, in order, the retransmissions among the outputs. */
  lemma {:induction false} TraceIsOutputs(s: SenderState, ops: seq<Op>)
    requires WithinBudget(s)
    ensures Leaving(Run(s, ops).outputs) == Leaving(s.outputs) + ResentSeqs(Trace(s, ops))
    decreases |ops|
  {
    hide Step, Leaving, Happens, Credit;
    if ops != [] {
      StepWithinBudget(s, ops[0]);
      StepLeaves(s, ops[0]);
      TraceIsOutputs(Step(s, ops[0]), ops[1..]);
      ResentConcat(Happens(s, ops[0]), Trace(Step(s, ops[0]), ops[1..]));
    }
  }

  // ---- the echo cadence ----

  /** The last instant at which the cadence was started or an echo request sent. */
  function Beat(s: SenderState, op: Op, b: Option<int>): Option<int> {
    if op.OpPush? && !s.started && !s.cfg.noRecovery then Some(op.now)
    else if op.OpTimer? && op.id.TimerRttEcho? && s.started then Some(op.now)
    else b
  }

  function Beats(s: SenderState, ops: seq<Op>, b: Option<int>): Option<int>
    requires WithinBudget(s)
    decreases |ops|
  {
    if ops == [] then b else
    StepWithinBudget(s, ops[0]);
    Beats(Step(s, ops[0]), ops[1..], Beat(s, ops[0], b))
  }

  /** Taking a timer off the wheel as it fires. */
  function Fired(t: Option<int>, op: Op): Option<int> {
    if op.OpTimer? && op.id.TimerRttEcho? then None else t
  }

  predicate NoTimers(outs: seq<Output>) { forall i :: 0 <= i < |outs| ==> !outs[i].SetTimer? && !outs[i].ClearTimer? }

  lemma {:induction false} TimersUntouched(t: Option<int>, outs: seq<Output>)
    requires NoTimers(outs)
    ensures Hear(t, TimerRttEcho, outs) == t
  {
    if outs != [] { TimersUntouched(t, Most(outs)); }
  }

  lemma {:induction false} ServedOutputs(s: SenderState, now: int, missing: seq<u32>, i: nat, emitted: nat)
    requires |s.ring| > 0 && i <= |missing|
    ensures var r := ServiceFrom(s, now, missing, i, emitted);
      s.outputs <= r.outputs && NoTimers(r.outputs[|s.outputs|..]) && r.started == s.started
    decreases |missing| - i
  {
    hide Judge;
    if i < |missing| {
      var s' := Service(s, now, missing[i]);
      if !Judge(s, now, missing[i]).Resend? {
        ServedOutputs(s', now, missing, i + 1, emitted);
      } else if emitted + 1 < s.cfg.maxNacksPerLoop {
        ServedOutputs(s', now, missing, i + 1, emitted + 1);
      }
    }
  }

  /** What the host's echo timer becomes on hearing what one call emits. */
  predicate Heard(s: SenderState, op: Op, t: Option<int>, r: SenderState) {
    && s.outputs <= r.outputs
    && Hear(Fired(t, op), TimerRttEcho, r.outputs[|s.outputs|..]) == Deadline(Beat(s, op, None), Fired(t, op))
    && r.started == (s.started || op.OpPush?)
  }

  lemma PushHeard(s: SenderState, op: Op, t: Option<int>)
    requires RingSize(|s.ring|) && op.OpPush?
    ensures Heard(s, op, t, Step(s, op))
  {
    hide NtpFromTimestamp;
    var out := Step(s, op).outputs;
    if s.started || s.cfg.noRecovery {
      assert out == s.outputs + [Last(out)];
      TimersUntouched(t, [Last(out)]);
    } else {
      var said := [SetTimer(TimerRttEcho, op.now + RTT_ECHO_INTERVAL), Last(out)];
      assert out == s.outputs + said;
      assert out[|s.outputs|..] == said;
      assert Most(said) == [said[0]] && Last([said[0]]) == said[0];
      assert Hear(t, TimerRttEcho, [said[0]]) == Some(op.now + RTT_ECHO_INTERVAL);
    }
  }

  lemma NackHeard(s: SenderState, op: Op, t: Option<int>)
    requires RingSize(|s.ring|) && IsNack(op)
    ensures Heard(s, op, t, Step(s, op))
  {
    hide ServiceFrom;
    ServedOutputs(s.(dataBW := s.dataBW.Feed(op.now, 0), retryBW := s.retryBW.Feed(op.now, 0)), op.now, op.fb.missing, 0, 0);
    TimersUntouched(t, Step(s, op).outputs[|s.outputs|..]);
  }

  lemma StepHeard(s: SenderState, op: Op, t: Option<int>)
    requires RingSize(|s.ring|)
    ensures Heard(s, op, t, Step(s, op))
  {
    hide NtpFromTimestamp, NtpToTimestamp, TruncDiv;
    if op.OpPush? {
      PushHeard(s, op, t);
    } else if IsNack(op) {
      NackHeard(s, op, t);
    } else {
      var out := Step(s, op).outputs;
      if op.OpTimer? && op.id.TimerRttEcho? && s.started {
        assert Last(out[|s.outputs|..]) == SetTimer(TimerRttEcho, op.now + RTT_ECHO_INTERVAL);
      } else {
        TimersUntouched(Fired(t, op), out[|s.outputs|..]);
      }
    }
  }

  /** One interval after a beat, if there was one. */
  function Deadline(b: Option<int>, otherwise: Option<int>): Option<int> {
    if b.Some? then Some(b.value + RTT_ECHO_INTERVAL) else otherwise
  }

  /** The echo timer on the wheel of a host that performs the outputs. */
  function Wheel(s: SenderState, ops: seq<Op>, t: Option<int>): Option<int>
    requires WithinBudget(s)
    decreases |ops|
  {
    if ops == [] then t else
    StepWithinBudget(s, ops[0]);
    StepHeard(s, ops[0], t);
    var r := Step(s, ops[0]);
    Wheel(r, ops[1..], Hear(Fired(t, ops[0]), TimerRttEcho, r.outputs[|s.outputs|..]))
  }

  lemma {:induction false} WheelKeepsBeat(s: SenderState, ops: seq<Op>, b: Option<int>)
    requires WithinBudget(s) && (!s.started ==> b.None?) && (s.started && !s.cfg.noRecovery ==> b.Some?)
    ensures Wheel(s, ops, Deadline(b, None)) == Deadline(Beats(s, ops, b), None)
    ensures Run(s, ops).started && !s.cfg.noRecovery ==> Beats(s, ops, b).Some?
    decreases |ops|
  {
    hide Step, Credit, Hear;
    if ops != [] {
      StepWithinBudget(s, ops[0]);
      StepHeard(s, ops[0], Deadline(b, None));
      WheelKeepsBeat(Step(s, ops[0]), ops[1..], Beat(s, ops[0], b));
    }
  }

  /** After any run of a new sender with a return channel, once a packet was pushed
      the host holds the echo timer, due one interval after the last beat. */
  lemma EchoNeverStops(cfg: Config, est: Estimator, ringSize: int, ssrc: u32, startSeq: u32, ops: seq<Op>)
    requires RingSize(ringSize)
    ensures var s := NewSender(cfg, est, ringSize, ssrc, startSeq);
      && WithinBudget(s)
      && Wheel(s, ops, None) == Deadline(Beats(s, ops, None), None)
      && (Run(s, ops).started && !cfg.noRecovery ==> Wheel(s, ops, None).Some?)
  {
    var s := NewSender(cfg, est, ringSize, ssrc, startSeq);
    CreditOfVacant(s.ring, cfg.maxRetries);
    WheelKeepsBeat(s, ops, None);
  }
}
