/** The receiver half of a flow as a step machine (internal/flow/receiver.go,
    internal/flow/flow.go): each entry point is a function from state to state.

    The state is in two parts. `Core` is everything that can influence a later
    delivery, request or timer; `Gauges` holds counters and diagnostics that are
    only ever written. `FeedCore` does not take the gauges, so nothing it does can
    depend on them. */
module ReceiverSpec {
  import opened Serial
  import opened FlowTypes
  import opened PlayoutBuffer
  import Recovery

  type Context = Recovery.Context

  const SRC_WRAP_PERIOD_NTP: int := 0xFFFF_FFFF_0000_0000 / 90000
  const SRC_WRAP_HALF_NTP: int := SRC_WRAP_PERIOD_NTP / 2
  const SRC_WRAP_PERIOD_MICROS: int := 0x1_0000_0000 * 100 / 9

  datatype Clock = Clock(
    offset: int,
    shortSeq: bool,
    maxSourceTime: u64,
    lastPacketTime: int,
    lastResync: int,
    clockResync: nat,
    framingResets: nat)

  datatype Core = Core(
    x: Context,
    started: bool,
    ssrc: u32,
    lastPath: int,
    clk: Clock,
    buf: Buffer,
    arq: Recovery.Arq,
    playoutArmed: bool,
    playoutDeadline: int,
    outputs: seq<Output>,
    reordered: nat,
    flowResets: nat,
    ignoredFeedback: nat)

  // ---- timers ----

  function Arm(c: Core, deadline: int): Core {
    if c.playoutArmed && deadline >= c.playoutDeadline then c
    else c.(playoutArmed := true, playoutDeadline := deadline,
            outputs := c.outputs + [SetTimer(TimerPlayout, deadline)])
  }

  function Disarm(c: Core): Core {
    if !c.playoutArmed then c
    else c.(playoutArmed := false, outputs := c.outputs + [ClearTimer(TimerPlayout)])
  }

  function ScheduleNack(c: Core, now: int): Core {
    if c.arq.missingCount == 0 || c.arq.nackArmed then c
    else c.(arq := c.arq.(nackArmed := true),
            outputs := c.outputs + [SetTimer(TimerNack, now + NACK_CADENCE)])
  }

  // ---- arrivals ----

  function FlowId(ssrc: u32): int { ssrc - ssrc % 2 }

  /** Discard the flow; the next packet anchors a new one. */
  function Reset(c: Core): Core {
    c.(started := false,
       buf := c.buf.(ring := seq(|c.buf.ring|, i => Empty), pending := false),
       arq := c.arq.(missing := [], missingCount := 0, nackArmed := false),
       playoutArmed := false)
  }

  /** A fresh packet of another flow resets the receiver. */
  predicate ChangesFlow(c: Core, pkt: MediaPacket) {
    c.started && !pkt.retransmit && FlowId(pkt.ssrc) != FlowId(c.ssrc)
  }

  /** A fresh packet in the other framing re-locks the clock mapping. */
  predicate ChangesFraming(c: Core, pkt: MediaPacket) {
    c.started && !pkt.retransmit && pkt.shortSeq != c.clk.shortSeq
  }

  function Reframe(k: Clock, now: int, pkt: MediaPacket): Clock {
    k.(offset := now - NtpToTimestamp(pkt.sourceTime),
       shortSeq := pkt.shortSeq,
       maxSourceTime := pkt.sourceTime,
       lastPacketTime := now,
       lastResync := now,
       framingResets := k.framingResets + 1)
  }

  function Prepare(c: Core, now: int, pkt: MediaPacket): Core {
    var c1 := if ChangesFlow(c, pkt) then Reset(c).(flowResets := c.flowResets + 1) else c;
    if ChangesFraming(c1, pkt) then c1.(clk := Reframe(c1.clk, now, pkt)) else c1
  }

  function Hold(pkt: MediaPacket, now: int, packetTime: int, recoveryBuffer: int): Held {
    Held(pkt.seqno, pkt.sourceTime, pkt.payload, pkt.frag, pkt.virtSrcPort, pkt.virtDstPort,
         now, packetTime, packetTime + recoveryBuffer)
  }

  /** The cursors and the clock locked onto the first packet. */
  function Anchored(c: Core, now: int, path: int, pkt: MediaPacket): Core
    requires RingSize(|c.buf.ring|)
  {
    var h := Hold(pkt, now, now, c.x.recoveryBuffer);
    c.(
      started := true,
      ssrc := pkt.ssrc,
      lastPath := path,
      clk := c.clk.(offset := now - NtpToTimestamp(pkt.sourceTime), shortSeq := pkt.shortSeq,
                    maxSourceTime := pkt.sourceTime, lastPacketTime := now, lastResync := now),
      arq := c.arq.(lastFound := pkt.seqno),
      buf := c.buf.(ring := c.buf.ring[pkt.seqno % |c.buf.ring| := Filled(h)],
                    deliverNext := pkt.seqno, highest := pkt.seqno, received := c.buf.received + 1))
  }

  /** The first packet anchors the flow. */
  function Start(c: Core, now: int, path: int, pkt: MediaPacket): Core
    requires RingSize(|c.buf.ring|)
  {
    var c2 := Arm(Anchored(c, now, path, pkt), now + c.x.recoveryBuffer);
    if c2.x.cfg.noRecovery then c2
    else c2.(outputs := c2.outputs + [SetTimer(TimerRttEcho, now + RTT_ECHO_INTERVAL)])
  }

  /** The source clock wrapped: time fell back by more than half the wrap span. */
  predicate Wraps(k: Clock, x: Context, now: int, pkt: MediaPacket) {
    && x.cfg.timing.TimingSource?
    && !pkt.retransmit
    && pkt.sourceTime < k.maxSourceTime
    && k.maxSourceTime - pkt.sourceTime > SRC_WRAP_HALF_NTP
    && now - k.lastResync >= 3 * x.recoveryBuffer
  }

  /** The clock after seeing pkt, and the packet's local playout base. */
  function Track(k: Clock, x: Context, now: int, pkt: MediaPacket): (Clock, int) {
    var wraps := Wraps(k, x, now, pkt);
    var offset := if wraps then k.offset + SRC_WRAP_PERIOD_MICROS else k.offset;
    var packetTime := if x.cfg.timing.TimingArrival? then now else NtpToTimestamp(pkt.sourceTime) + offset;
    var k1 := if wraps then
                k.(offset := offset, maxSourceTime := pkt.sourceTime, lastPacketTime := packetTime,
                   lastResync := now, clockResync := k.clockResync + 1)
              else k;
    (if pkt.sourceTime > k1.maxSourceTime
     then k1.(maxSourceTime := pkt.sourceTime, lastPacketTime := packetTime) else k1,
     packetTime)
  }

  datatype Verdict = TooLate | Duplicate | Accept(outOfOrder: bool)

  /** What becomes of a packet once the clock has seen it. */
  function Judge(c: Core, now: int, pkt: MediaPacket, packetTime: int): Verdict
    requires |c.buf.ring| > 0
  {
    var older := && !c.x.cfg.timing.TimingArrival?
                 && packetTime < c.clk.lastPacketTime
                 && pkt.seqno != Add(c.arq.lastFound, 1);
    if older && now > packetTime + Mul110(c.x.recoveryBuffer) then TooLate
    else if Less(pkt.seqno, c.buf.deliverNext) then TooLate
    else if c.buf.Holds(pkt.seqno) && c.buf.Get(pkt.seqno).sourceTime == pkt.sourceTime then Duplicate
    else Accept(older && !pkt.retransmit)
  }

  /** Buffer an accepted packet and look for a gap before it. */
  function Absorb(c: Core, now: int, path: int, pkt: MediaPacket, packetTime: int, outOfOrder: bool): Core
    requires c.buf.Valid()
  {
    var buf := Insert(c.buf, Hold(pkt, now, packetTime, c.x.recoveryBuffer));
    var marked := if pkt.retransmit || outOfOrder || Add(c.arq.lastFound, 1) == pkt.seqno then c.arq
                  else Recovery.MarkMissing(c.arq, c.x, buf.ring, c.clk.shortSeq, now, path, pkt.seqno, packetTime);
    var arq := if pkt.retransmit || outOfOrder then marked else marked.(lastFound := pkt.seqno);
    c.(buf := buf, arq := arq, lastPath := path,
       reordered := if outOfOrder then c.reordered + 1 else c.reordered)
  }

  /** Take an accepted packet in, and set the timers. */
  function Admit(c: Core, now: int, path: int, pkt: MediaPacket, packetTime: int, outOfOrder: bool): Core
    requires c.buf.Valid()
  {
    ScheduleNack(Arm(Absorb(c, now, path, pkt, packetTime, outOfOrder), packetTime + c.x.recoveryBuffer), now)
  }

  /** The verdict on a packet of a started flow. */
  function VerdictOn(c: Core, now: int, pkt: MediaPacket): Verdict
    requires |c.buf.ring| > 0
  {
    var (clk, packetTime) := Track(c.clk, c.x, now, pkt);
    Judge(c.(clk := clk), now, pkt, packetTime)
  }

  function FeedStarted(c: Core, now: int, path: int, pkt: MediaPacket): Core
    requires c.buf.Valid()
  {
    var (clk, packetTime) := Track(c.clk, c.x, now, pkt);
    var c1 := c.(clk := clk);
    match VerdictOn(c, now, pkt)
    case TooLate => c1
    case Duplicate => c1
    case Accept(outOfOrder) => Admit(c1, now, path, pkt, packetTime, outOfOrder)
  }

  function FeedCore(c: Core, now: int, path: int, pkt: MediaPacket): Core
    requires c.buf.Valid()
  {
    var c1 := Prepare(c, now, pkt);
    if c1.started then FeedStarted(c1, now, path, pkt)
    else if pkt.retransmit then c1
    else Start(c1, now, path, pkt)
  }

  // ---- gauges ----

  datatype Gauges = Gauges(
    ipsLastArrival: int,
    ipsMin: int,
    ipsCur: int,
    ipsMax: int,
    retransmittedReceived: nat,
    tooLate: nat,
    tooLateRetransmit: nat,
    duplicates: nat,
    pathSeen: seq<set<int>>)

  function PathBit(path: int): int { path % 64 }

  function Spacing(g: Gauges, started: bool, now: int): Gauges {
    var delta := now - g.ipsLastArrival;
    if started then
      g.(ipsLastArrival := now, ipsCur := delta, ipsMin := Min(delta, g.ipsMin), ipsMax := Max(delta, g.ipsMax))
    else g.(ipsLastArrival := now)
  }

  /** The gauges on any arrival; a reset forgets which paths carried what. */
  function Arrived(g: Gauges, started: bool, resets: bool, now: int): Gauges {
    var g0 := Spacing(g, started, now);
    if resets then g0.(pathSeen := seq(|g.pathSeen|, i => {})) else g0
  }

  /** A verdict on the gauges; i is the packet's slot. */
  function Note(g: Gauges, v: Verdict, i: nat, path: int, retransmit: bool): Gauges
    requires i < |g.pathSeen|
  {
    var g1 := if retransmit then g.(retransmittedReceived := g.retransmittedReceived + 1) else g;
    match v
    case TooLate =>
      g1.(tooLate := g1.tooLate + 1,
          tooLateRetransmit := if retransmit then g1.tooLateRetransmit + 1 else g1.tooLateRetransmit)
    case Duplicate =>
      g1.(duplicates := g1.duplicates + 1, pathSeen := g1.pathSeen[i := g1.pathSeen[i] + {PathBit(path)}])
    case Accept(_) => g1.(pathSeen := g1.pathSeen[i := {PathBit(path)}])
  }

  function FeedGauges(g: Gauges, c: Core, now: int, path: int, pkt: MediaPacket): Gauges
    requires c.buf.Valid() && |g.pathSeen| == |c.buf.ring|
  {
    var c1 := Prepare(c, now, pkt);
    var g1 := Arrived(g, c.started, ChangesFlow(c, pkt), now);
    if c1.started then Note(g1, VerdictOn(c1, now, pkt), pkt.seqno % |c.buf.ring|, path, pkt.retransmit)
    else if pkt.retransmit then g1
    else g1.(pathSeen := g1.pathSeen[pkt.seqno % |c.buf.ring| := {PathBit(path)}])
  }

  // ---- the other entry points ----

  function DeliverDue(c: Core, now: int): Core
    requires c.buf.Valid()
  {
    if !c.started then c else
    var (buf, wake) := Drain(c.buf, now);
    match wake
    case WakeAt(deadline) => Arm(c.(buf := buf), deadline)
    case Idle => Disarm(c.(buf := buf))
  }

  function NackPass(c: Core, now: int): Core
    requires |c.buf.ring| > 0
  {
    var (arq, batch) := Recovery.ProcessNacks(c.arq, c.x, c.buf.ring, now);
    c.(arq := arq,
       outputs := if batch == [] then c.outputs
                  else c.outputs + [SendFeedback(c.lastPath, NackRequest(c.ssrc, batch))])
  }

  /** `rescaled` is the buffer the periodic auto-scaling settles on. */
  function HandleTimer(c: Core, now: int, id: TimerId, rescaled: int): Core
    requires c.buf.Valid()
  {
    match id
    case TimerPlayout => DeliverDue(c.(playoutArmed := false), now)
    case TimerNack => ScheduleNack(NackPass(c.(arq := c.arq.(nackArmed := false)), now), now)
    case TimerRttEcho =>
      if !c.started then c
      else c.(outputs := c.outputs + [SendFeedback(c.lastPath, RttEchoRequest(0, NtpFromTimestamp(now))),
                                      SetTimer(TimerRttEcho, now + RTT_ECHO_INTERVAL)],
              x := c.x.(recoveryBuffer := rescaled))
  }

  function Tick(c: Core, now: int): Core
    requires c.buf.Valid()
  {
    NackPass(DeliverDue(c, now), now)
  }

  function FeedFeedback(c: Core, now: int, fb: Feedback): Core {
    match fb
    case RttEchoRequest(ssrc, t) =>
      c.(outputs := c.outputs + [SendFeedback(c.lastPath, RttEchoResponse(ssrc, t, 0))])
    case RttEchoResponse(_, t, delay) =>
      c.(x := c.x.(est := c.x.est.Observe(now - NtpToTimestamp(t) - delay)))
    case NackRequest(_, _) => c.(ignoredFeedback := c.ignoredFeedback + 1)
    case OtherFeedback => c.(ignoredFeedback := c.ignoredFeedback + 1)
  }

  /** One call into the receiver. */
  datatype Op =
    | OpFeed(now: int, path: int, pkt: MediaPacket)
    | OpTimer(now: int, id: TimerId, rescaled: int)
    | OpTick(now: int)
    | OpFeedback(now: int, fb: Feedback)

  function Step(c: Core, op: Op): Core
    requires c.buf.Valid()
  {
    match op
    case OpFeed(now, path, pkt) => FeedCore(c, now, path, pkt)
    case OpTimer(now, id, rescaled) => HandleTimer(c, now, id, rescaled)
    case OpTick(now) => Tick(c, now)
    case OpFeedback(now, fb) => FeedFeedback(c, now, fb)
  }

  function NewCore(cfg: Config, est: Estimator, recoveryBuffer: int, ringSize: int): Core
    requires RingSize(ringSize)
  {
    Core(Recovery.Context(cfg, est, recoveryBuffer), false, 0, 0,
         Clock(0, false, 0, 0, 0, 0, 0),
         Buffer(seq(ringSize, i => Empty), 0, 0, false, [], 0, 0, 0, 0, 0),
         Recovery.NewArq(cfg),
         false, 0, [], 0, 0, 0)
  }
}
