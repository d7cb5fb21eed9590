/** Round trips (internal/rtt/rtt.go, internal/flow/flow.go): an echo measures exactly the
    time it took, the estimate settles between the samples it is given, and a receiver
    never stops asking. */
module RoundTrips {
  import opened Serial
  import opened FlowTypes
  import opened ReceiverSpec
  import opened ReceiverProps
  import opened ReceiverTimers
  import opened ReceiverFeed
  import opened ReceiverRequests
  import Snd = SenderSpec

  // ---- one echo ----

  /** How long an echoed timestamp tells instants apart, in microseconds. */
  const ERA: int := 0x1_0000_0000 * 1_000_000

  lemma NtpEra(t: nat)
    ensures NtpToTimestamp(NtpFromTimestamp(t)) == t % ERA
  {
    var sec, us := t / 1_000_000, t % 1_000_000;
    var frac := (us * 0x1_0000_0000 + 500_000) / 1_000_000;
    assert frac < 0x1_0000_0000;
    assert (frac * 1_000_000 + 0x8000_0000) / 0x1_0000_0000 == us;
    var s := sec % 0x1_0000_0000;
    assert NtpFromTimestamp(t) == s * 0x1_0000_0000 + frac;
    assert NtpToTimestamp(NtpFromTimestamp(t)) == s * 1_000_000 + us;
    EraSplits(t);
  }

  lemma EraSplits(t: nat)
    ensures t % ERA == t / 1_000_000 % 0x1_0000_0000 * 1_000_000 + t % 1_000_000
  {
  }

  /** What an echo request sent on a timer comes back with from the other end. */
  function Echoed(asker: seq<Output>, answerer: seq<Output>): Option<Feedback> {
    if |asker| >= 2 && asker[|asker| - 2].SendFeedback? && asker[|asker| - 2].fb.RttEchoRequest?
       && answerer != [] && Last(answerer).SendFeedback? && Last(answerer).fb.RttEchoResponse?
    then Some(Last(answerer).fb) else None
  }

  /** An echo of the sender, asked at t1, answered by a receiver whenever it arrives and
      heard back at t2, adds exactly one sample: t2 - t1, within one era of the clock. */
  lemma SenderMeasures(s: Snd.SenderState, c: Core, t1: nat, t: int, t2: int)
    requires RingSize(|s.ring|) && s.started
    ensures var s1 := Snd.HandleTimer(s, t1, TimerRttEcho);
      && |s1.outputs| >= 2 && s1.outputs[|s1.outputs| - 2].SendFeedback?
      && var c1 := FeedFeedback(c, t, s1.outputs[|s1.outputs| - 2].fb);
         var back := Echoed(s1.outputs, c1.outputs);
         && back.Some? && c1.outputs[..|c1.outputs| - 1] == c.outputs
         && Snd.FeedFeedback(s1, t2, back.value) == s1.(est := s.est.Observe(t2 - t1 % ERA))
  {
    hide NtpFromTimestamp, NtpToTimestamp, TruncDiv;
    NtpEra(t1);
  }

  /** And the same from the receiver's side. */
  lemma ReceiverMeasures(c: Core, s: Snd.SenderState, t1: nat, rescaled: int, t: int, t2: int)
    requires c.buf.Valid() && RingSize(|s.ring|) && c.started
    ensures var c1 := HandleTimer(c, t1, TimerRttEcho, rescaled);
      && |c1.outputs| >= 2 && c1.outputs[|c1.outputs| - 2].SendFeedback?
      && var s1 := Snd.FeedFeedback(s, t, c1.outputs[|c1.outputs| - 2].fb);
         var back := Echoed(c1.outputs, s1.outputs);
         && back.Some? && s1.outputs[..|s1.outputs| - 1] == s.outputs
         && FeedFeedback(c1, t2, back.value) == c1.(x := c1.x.(est := c.x.est.Observe(t2 - t1 % ERA)))
  {
    hide NtpFromTimestamp, NtpToTimestamp, TruncDiv;
    NtpEra(t1);
  }

  // ---- the estimate ----

  function ObserveAll(e: Estimator, samples: seq<int>): Estimator {
    if samples == [] then e else ObserveAll(e, Most(samples)).Observe(Last(samples))
  }

  /** How many samples an estimate may need to come between lo and hi. */
  function Settling(e: Estimator, lo: int, hi: int): int {
    Max(8 * lo - e.eightTimesRtt, e.eightTimesRtt - (8 * hi + 7))
  }

  lemma ObserveNears(e: Estimator, sample: int, lo: nat, hi: nat)
    requires lo <= sample <= hi && e.eightTimesRtt >= 0
    ensures var r := e.Observe(sample);
      && r.eightTimesRtt >= 0 && r.lastSample == sample
      && Settling(r, lo, hi) <= Max(Settling(e, lo, hi) - 1, 0)
  {
  }

  /** Samples between two values bring the smoothed round trip between them, from wherever
      it was, and keep it there. */
  lemma {:induction false} EstimateSettles(e: Estimator, samples: seq<int>, lo: nat, hi: nat)
    requires e.eightTimesRtt >= 0 && forall i :: 0 <= i < |samples| ==> lo <= samples[i] <= hi
    ensures var r := ObserveAll(e, samples);
      && r.eightTimesRtt >= 0 && Settling(r, lo, hi) <= Max(Settling(e, lo, hi) - |samples|, 0)
      && (samples != [] ==> r.lastSample == Last(samples))
      && (Settling(e, lo, hi) <= |samples| ==> lo <= r.Smoothed() <= hi)
  {
    hide Estimator.Observe, Settling;
    if samples != [] {
      EstimateSettles(e, Most(samples), lo, hi);
      ObserveNears(ObserveAll(e, Most(samples)), Last(samples), lo, hi);
    }
    SettledBetween(ObserveAll(e, samples), lo, hi);
  }

  lemma SettledBetween(e: Estimator, lo: nat, hi: nat)
    requires e.eightTimesRtt >= 0
    ensures Settling(e, lo, hi) <= 0 <==> lo <= e.Smoothed() <= hi
  {
  }

  function Apart(a: int, b: int): int { if a < b then b - a else a - b }

  /** The round trip acted on is the allowed one nearest the round trip measured; at least
      three milliseconds are always allowed for. */
  lemma ClampNearest(rtt: int, cfg: Config, v: int)
    requires Max(cfg.rttMin, 3000) <= cfg.rttMax
    ensures var c := ClampRtt(rtt, cfg);
      && 3000 <= c && cfg.rttMin <= c <= cfg.rttMax
      && (3000 <= v && cfg.rttMin <= v <= cfg.rttMax ==> Apart(rtt, c) <= Apart(rtt, v))
  {
  }

  /** A tenth more, truncated toward zero: what separates requests, and what a packet may
      be late. */
  lemma TenthMore(d: int)
    ensures Mul110(d) == d + TruncDiv(d, 10)
  {
    var n: nat := if d < 0 then -d else d;
    var (x, f) := (n as real * 1.1, n + n / 10);
    assert 10.0 * x == (11 * n) as real;
    assert (10 * f) as real <= 10.0 * x < (10 * f + 10) as real;
    FloorIs(x, f);
  }

  lemma FloorIs(x: real, f: int)
    requires f as real <= x < f as real + 1.0
    ensures x.Floor == f
  {
  }

  // ---- the receiver never stops asking ----

  /** A call that begins a flow or asks for an echo. */
  function Beat(c: Core, op: Op): Option<int> {
    if op.OpFeed? && !Continues(c, op.pkt) && !op.pkt.retransmit && !c.x.cfg.noRecovery then Some(op.now)
    else if op.OpTimer? && op.id.TimerRttEcho? && c.started then Some(op.now)
    else None
  }

  /** When the last of them was. */
  function LastBeat(c: Core, ops: seq<Op>): Option<int>
    requires Valid(c)
  {
    if ops == [] then None else
    var b := Beat(Run(c, Most(ops)), Last(ops));
    if b.Some? then b else Fired(LastBeat(c, Most(ops)), TimerRttEcho, Last(ops))
  }

  /** It sets or clears the echo timer. */
  predicate OnEcho(o: Output) { (o.SetTimer? || o.ClearTimer?) && o.id.TimerRttEcho? }

  predicate Silent(said: seq<Output>) { forall i :: 0 <= i < |said| ==> !OnEcho(said[i]) }

  lemma {:induction false} SilentHeard(t: Option<int>, outs: seq<Output>)
    requires Silent(outs)
    ensures Hear(t, TimerRttEcho, outs) == t
  {
    if outs != [] { SilentHeard(t, Most(outs)); }
  }

  /** From c to r the outputs grew by `said`. */
  predicate Says(c: Core, r: Core, said: seq<Output>) { r.outputs == c.outputs + said }

  lemma FeedSays(c: Core, now: int, path: int, pkt: MediaPacket) returns (said: seq<Output>)
    requires Valid(c)
    ensures var r := FeedCore(c, now, path, pkt);
      && Says(c, r, said) && r.x.cfg == c.x.cfg
      && (if Continues(c, pkt) || pkt.retransmit || c.x.cfg.noRecovery then Silent(said)
          else said != [] && Last(said) == SetTimer(TimerRttEcho, now + 100_000))
      && r.started == (c.started || !pkt.retransmit)
  {
    hide FeedCore, Placed, Takes, Stores, Losses, Queued, Room, Revealed, NtpToTimestamp;
    var r := FeedCore(c, now, path, pkt);
    if Continues(c, pkt) {
      FeedExact(c, now, path, pkt);
    } else {
      FlowBegins(c, now, path, pkt);
      if !pkt.retransmit { var _ := BeginSays(c, now, path, pkt, r); }
    }
    said := r.outputs[|c.outputs|..];
  }

  lemma BeginSays(c: Core, now: int, path: int, pkt: MediaPacket, r: Core) returns (said: seq<Output>)
    requires BeginsTo(c, now, path, pkt, r)
    ensures r.outputs == c.outputs + said
    ensures if c.x.cfg.noRecovery then Silent(said) else said != [] && Last(said) == SetTimer(TimerRttEcho, now + 100_000)
  {
    var due := now + c.x.recoveryBuffer;
    var first := if c.started || !c.playoutArmed || due < c.playoutDeadline then [SetTimer(TimerPlayout, due)] else [];
    var second := if c.x.cfg.noRecovery then [] else [SetTimer(TimerRttEcho, now + 100_000)];
    said := first + second;
    assert r.outputs == c.outputs + said;
  }

  lemma DeliverSays(c: Core, now: int) returns (said: seq<Output>)
    requires c.buf.Valid()
    ensures var r := DeliverDue(c, now); Says(c, r, said) && Silent(said) && r.started == c.started && r.x == c.x
  {
    hide PlayoutBuffer.Drain;
    said := DeliverDue(c, now).outputs[|c.outputs|..];
  }

  lemma TimerSays(c: Core, now: int, id: TimerId, rescaled: int) returns (said: seq<Output>)
    requires Valid(c)
    ensures var r := HandleTimer(c, now, id, rescaled);
      && Says(c, r, said) && r.x.cfg == c.x.cfg && r.started == c.started
      && (if id.TimerRttEcho? && c.started then said != [] && Last(said) == SetTimer(TimerRttEcho, now + 100_000)
          else Silent(said))
  {
    hide DeliverDue, NackPass, Asked, Sweeps, NtpFromTimestamp;
    match id
    case TimerPlayout => said := DeliverSays(c.(playoutArmed := false), now);
    case TimerNack =>
      NackTimerExact(c, now, rescaled);
      said := HandleTimer(c, now, id, rescaled).outputs[|c.outputs|..];
    case TimerRttEcho => said := HandleTimer(c, now, id, rescaled).outputs[|c.outputs|..];
  }

  lemma StepSays(c: Core, op: Op) returns (said: seq<Output>)
    requires Valid(c)
    ensures var r := Step(c, op);
      && Says(c, r, said) && r.x.cfg == c.x.cfg && (c.started ==> r.started)
      && (if Beat(c, op).Some? then said != [] && Last(said) == SetTimer(TimerRttEcho, op.now + 100_000) else Silent(said))
      && (!c.started && r.started && !c.x.cfg.noRecovery ==> Beat(c, op).Some?)
  {
    hide FeedCore, HandleTimer, DeliverDue, NackPass, Asked, Sweeps, NtpFromTimestamp, NtpToTimestamp, TruncDiv;
    match op
    case OpFeed(now, path, pkt) => said := FeedSays(c, now, path, pkt);
    case OpTimer(now, id, rescaled) => said := TimerSays(c, now, id, rescaled);
    case OpTick(now) =>
      TickExact(c, now);
      var d := DeliverDue(c, now);
      said := DeliverSays(c, now);
      said := said + Request(d, Asked(d, now));
    case OpFeedback(now, fb) => said := Step(c, op).outputs[|c.outputs|..];
  }

  lemma BeatHeard(c: Core, op: Op, t: Option<int>)
    requires Valid(c)
    ensures |c.outputs| <= |Step(c, op).outputs|
    ensures Hear(Fired(t, TimerRttEcho, op), TimerRttEcho, Step(c, op).outputs[|c.outputs|..]) ==
      if Beat(c, op).Some? then Some(op.now + 100_000) else Fired(t, TimerRttEcho, op)
  {
    hide Step;
    var said := StepSays(c, op);
    assert Step(c, op).outputs[|c.outputs|..] == said;
    if Beat(c, op).None? { SilentHeard(Fired(t, TimerRttEcho, op), said); }
  }

  /** After any run of a receiver, while a flow with a return channel is in progress, the
      host holds the echo timer, due one interval after the last beat. */
  lemma {:induction false} AskingNeverStops(c: Core, ops: seq<Op>)
    requires Valid(c) && !c.started
    ensures var (b, r) := (LastBeat(c, ops), Run(c, ops));
      && HostTimer(c, ops, TimerRttEcho) == (if b.Some? then Some(b.value + 100_000) else None)
      && r.x.cfg == c.x.cfg && (r.started && !c.x.cfg.noRecovery ==> b.Some?)
  {
    hide Step, Continues;
    if ops != [] {
      AskingNeverStops(c, Most(ops));
      var (before, op) := (Run(c, Most(ops)), Last(ops));
      BeatHeard(before, op, HostTimer(c, Most(ops), TimerRttEcho));
      var said := StepSays(before, op);
    }
  }
}
