/** The source clock of a receiver (internal/flow/receiver.go): a source whose media
    clock counts microseconds and wraps with the 32-bit 90 kHz counter is followed
    through every wrap, so that playout instants keep the source's own spacing. */
module SourceClock {
  import opened Arith
  import opened Serial
  import opened FlowTypes
  import opened PlayoutBuffer
  import opened ReceiverSpec
  import opened ReceiverProps
  import opened ReceiverFeed

  /** One lap of the source clock, in microseconds. */
  const LAP: int := 47_721_858_844

  /** The least fall of the source clock that reads as a wrap, in microseconds. */
  const WRAP_FALL: int := 23_860_929_417

  /** What a packet taken at u, in unwrapped microseconds, carries. */
  function Stamp(u: nat): u64 { NtpFromTimestamp(u % LAP) }

  // ---- the timestamp format ----

  /** Within the range of the format the conversion is a rounding division. */
  lemma NtpRounds(v: nat)
    requires v < LAP
    ensures NtpFromTimestamp(v) == (v * 0x1_0000_0000 + 500_000) / 1_000_000
  {
    var sec, us := v / 1_000_000, v % 1_000_000;
    var frac := (us * 0x1_0000_0000 + 500_000) / 1_000_000;
    assert v * 0x1_0000_0000 + 500_000 == 1_000_000 * (sec * 0x1_0000_0000) + (us * 0x1_0000_0000 + 500_000);
    assert frac < 0x1_0000_0000 && sec < 0x1_0000_0000;
  }

  lemma NtpRoundTrip(v: nat)
    requires v < LAP
    ensures NtpToTimestamp(NtpFromTimestamp(v)) == v
  {
    var sec, us := v / 1_000_000, v % 1_000_000;
    var frac := (us * 0x1_0000_0000 + 500_000) / 1_000_000;
    assert frac < 0x1_0000_0000 && sec < 0x1_0000_0000;
    assert NtpFromTimestamp(v) == sec * 0x1_0000_0000 + frac;
    assert (frac * 1_000_000 + 0x8000_0000) / 0x1_0000_0000 == us;
  }

  /** Stamps are in the order of what they stand for, and the receiver's test for a
      wrap is a test of the fall in microseconds. */
  lemma StampsCompare(v: nat, w: nat)
    requires v < LAP && w < LAP
    ensures NtpFromTimestamp(v) < NtpFromTimestamp(w) <==> v < w
    ensures NtpFromTimestamp(w) - NtpFromTimestamp(v) > SRC_WRAP_HALF_NTP <==> w - v >= WRAP_FALL
  {
    hide NtpFromTimestamp;
    NtpRounds(v);
    NtpRounds(w);
  }

  // ---- following the source ----

  /** The clock is at the newest packet, and reads the lap of that packet right. */
  predicate Follows(k: Clock, newest: nat, base: int) {
    k.maxSourceTime == Stamp(newest) && k.offset == base + newest - newest % LAP && k.lastPacketTime == newest + base
  }

  /** The packet falls by enough, and late enough, to be read as a wrap. */
  predicate ReadsWrap(k: Clock, x: Context, newest: nat, now: int, u: nat, retransmit: bool) {
    && x.cfg.timing.TimingSource? && !retransmit
    && newest % LAP - u % LAP >= WRAP_FALL
    && now - k.lastResync >= 3 * x.recoveryBuffer
  }

  /** The packet is of the lap that the clock will take it to be of. */
  predicate LapRead(k: Clock, x: Context, newest: nat, now: int, u: nat, retransmit: bool) {
    u / LAP == newest / LAP + (if ReadsWrap(k, x, newest, now, u, retransmit) then 1 else 0)
  }

  lemma LapSplit(u: nat)
    ensures u == LAP * (u / LAP) + u % LAP && 0 <= u % LAP < LAP
  {
  }

  /** A packet's playout base is its true source time, shifted by one constant, if and
      only if its lap is read right; and then the clock goes on following. */
  lemma TrackFollows(k: Clock, x: Context, newest: nat, base: int, now: int, pkt: MediaPacket, u: nat)
    requires Follows(k, newest, base) && pkt.sourceTime == Stamp(u) && !x.cfg.timing.TimingArrival?
    ensures var (k', packetTime) := Track(k, x, now, pkt);
      && (packetTime == u + base <==> LapRead(k, x, newest, now, u, pkt.retransmit))
      && (LapRead(k, x, newest, now, u, pkt.retransmit) ==> Follows(k', Max(newest, u), base))
      && k'.lastResync == (if ReadsWrap(k, x, newest, now, u, pkt.retransmit) then now else k.lastResync)
  {
    hide NtpFromTimestamp, NtpToTimestamp;
    LapSplit(u);
    LapSplit(newest);
    StampsCompare(u % LAP, newest % LAP);
    StampsCompare(newest % LAP, u % LAP);
    NtpRoundTrip(u % LAP);
  }

  /** A packet overtaken by the wrap is of the lap before, and is put a lap too late. */
  lemma StragglerMisread(k: Clock, x: Context, base: int, now: int, pkt: MediaPacket)
    requires Follows(k, LAP, base) && pkt.sourceTime == Stamp(LAP - 1) && !x.cfg.timing.TimingArrival?
    ensures Track(k, x, now, pkt).1 == LAP - 1 + base + LAP
  {
    hide NtpFromTimestamp, NtpToTimestamp;
    StampsCompare(LAP - 1, 0);
    NtpRoundTrip(LAP - 1);
  }

  /** What makes a lap read right: the packet is within half a lap of the newest one and
      of no earlier lap, and if it is of the next lap it is an original that comes at
      least the dwell time after the last wrap. */
  predicate Steady(k: Clock, x: Context, newest: nat, now: int, u: nat, retransmit: bool) {
    && newest - WRAP_FALL < u <= newest + LAP - WRAP_FALL
    && u / LAP >= newest / LAP
    && (u / LAP > newest / LAP ==>
          x.cfg.timing.TimingSource? && !retransmit && now - k.lastResync >= 3 * x.recoveryBuffer)
  }

  lemma SteadyIsRead(k: Clock, x: Context, newest: nat, now: int, u: nat, retransmit: bool)
    requires Steady(k, x, newest, now, u, retransmit)
    ensures LapRead(k, x, newest, now, u, retransmit)
  {
    LapSplit(u);
    LapSplit(newest);
  }

  // ---- the receiver ----

  /** The packet was taken at u, goes on with the flow, and its lap is read right. */
  predicate Genuine(c: Core, newest: nat, now: int, pkt: MediaPacket, u: nat) {
    && c.started && !ChangesFlow(c, pkt) && !ChangesFraming(c, pkt)
    && pkt.sourceTime == Stamp(u)
    && LapRead(c.clk, c.x, newest, now, u, pkt.retransmit)
  }

  lemma StartFollows(c: Core, now: int, path: int, pkt: MediaPacket, u: nat)
    requires Valid(c) && !c.started && pkt.sourceTime == Stamp(u)
    ensures var r := Start(c, now, path, pkt);
      && Follows(r.clk, u, now - u)
      && r.buf.Valid() && r.buf.Holds(pkt.seqno)
      && r.buf.Get(pkt.seqno).outputTime == u + (now - u) + c.x.recoveryBuffer
  {
    hide NtpFromTimestamp, NtpToTimestamp;
    StartValid(c, now, path, pkt);
    NtpRoundTrip(u % LAP);
  }

  /** In time, on the source's own clock: it is no older than the newest packet, or the
      successor of the last one found, or within its buffer and a tenth. */
  predicate InTime(c: Core, newest: nat, base: int, now: int, pkt: MediaPacket, u: nat) {
    u >= newest || pkt.seqno == Add(c.arq.lastFound, 1) || now <= u + base + Mul110(c.x.recoveryBuffer)
  }

  /** A packet is buffered exactly when it is in time, not behind the cursor and not there
      already; and then it is played its true source time, plus the constant, plus the
      recovery buffer. */
  lemma FeedFollows(c: Core, newest: nat, base: int, now: int, path: int, pkt: MediaPacket, u: nat)
    requires Valid(c) && !c.x.cfg.timing.TimingArrival?
    requires Follows(c.clk, newest, base) && Genuine(c, newest, now, pkt, u)
    ensures var r := FeedCore(c, now, path, pkt);
      && r.started && r.buf.Valid() && Follows(r.clk, Max(newest, u), base)
      && (if InTime(c, newest, base, now, pkt, u) && !Less(pkt.seqno, c.buf.deliverNext) && !Copied(c.buf, pkt)
          then Stores(c.buf, r.buf, pkt, now, u + base, c.x.recoveryBuffer) else r.buf == c.buf)
  {
    hide Track, LapRead, Stamp, Stores, QueuesTo, Copied, Mul110;
    FeedValid(c, now, path, pkt);
    TrackFollows(c.clk, c.x, newest, base, now, pkt, u);
    GenuineContinues(c, newest, now, pkt, u);
    FeedExact(c, now, path, pkt);
  }

  lemma GenuineContinues(c: Core, newest: nat, now: int, pkt: MediaPacket, u: nat)
    requires Genuine(c, newest, now, pkt, u)
    ensures Continues(c, pkt) && !Reframes(c, pkt)
  {
    SameFlow(c.ssrc, pkt.ssrc);
  }

  lemma AdmitLeaves(c: Core, now: int, path: int, pkt: MediaPacket, packetTime: int, outOfOrder: bool)
    requires c.buf.Valid()
    ensures var r := Admit(c, now, path, pkt, packetTime, outOfOrder); r.clk == c.clk && r.started == c.started && r.x == c.x
  {
  }

  // ---- whole runs ----

  /** The newest source time after a run whose i-th call, if it brings a packet, brings
      one taken at us[i]. */
  function Newest(newest: nat, ops: seq<Op>, us: seq<nat>): nat
    requires |us| == |ops|
    decreases |ops|
  {
    if ops == [] then newest
    else if Last(ops).OpFeed? then Max(Newest(newest, Most(ops), Most(us)), Last(us))
    else Newest(newest, Most(ops), Most(us))
  }

  predicate RunGenuine(c: Core, newest: nat, ops: seq<Op>, us: seq<nat>)
    requires Valid(c) && |us| == |ops|
    decreases |ops|
  {
    ops == [] ||
    (RunGenuine(c, newest, Most(ops), Most(us)) &&
     var (before, op) := (Run(c, Most(ops)), Last(ops));
     op.OpFeed? ==> Genuine(before, Newest(newest, Most(ops), Most(us)), op.now, op.pkt, Last(us)))
  }

  lemma StepFollows(c: Core, newest: nat, base: int, op: Op, u: nat)
    requires Valid(c) && c.started && !c.x.cfg.timing.TimingArrival? && Follows(c.clk, newest, base)
    requires op.OpFeed? ==> Genuine(c, newest, op.now, op.pkt, u)
    ensures var r := Step(c, op);
      && r.started && r.x.cfg == c.x.cfg
      && Follows(r.clk, if op.OpFeed? then Max(newest, u) else newest, base)
  {
    hide FeedCore, Drain, Follows, Genuine, NtpFromTimestamp, NtpToTimestamp, TruncDiv;
    match op
    case OpFeed(now, path, pkt) =>
      FeedFollows(c, newest, base, now, path, pkt, u);
      FeedKeepsCfg(c, now, path, pkt);
    case OpTimer(_, _, _) =>
    case OpTick(_) =>
    case OpFeedback(_, _) =>
  }

  lemma FeedKeepsCfg(c: Core, now: int, path: int, pkt: MediaPacket)
    requires Valid(c)
    ensures FeedCore(c, now, path, pkt).x == c.x
  {
    hide Admit, Track, Judge;
    PrepareValid(c, now, pkt);
    var c1 := Prepare(c, now, pkt);
    var (clk, packetTime) := Track(c1.clk, c1.x, now, pkt);
    match Judge(c1.(clk := clk), now, pkt, packetTime)
    case Accept(o) => AdmitLeaves(c1.(clk := clk), now, path, pkt, packetTime, o);
    case _ =>
  }

  /** Over any run whose laps are read right, through any number of wraps, the clock
      keeps the constant it was anchored with: every packet in time is buffered, to be
      played at its true source time plus that constant plus the recovery buffer. */
  lemma {:induction false} RunFollows(c: Core, newest: nat, base: int, ops: seq<Op>, us: seq<nat>)
    requires Valid(c) && c.started && !c.x.cfg.timing.TimingArrival? && Follows(c.clk, newest, base)
    requires |us| == |ops| && RunGenuine(c, newest, ops, us)
    ensures var r := Run(c, ops);
      && r.started && r.x.cfg == c.x.cfg && Follows(r.clk, Newest(newest, ops, us), base)
    ensures ops != [] && Last(ops).OpFeed? ==>
      var (before, b, op) := (Run(c, Most(ops)), Run(c, ops).buf, Last(ops));
      if && InTime(before, Newest(newest, Most(ops), Most(us)), base, op.now, op.pkt, Last(us))
         && !Less(op.pkt.seqno, before.buf.deliverNext) && !Copied(before.buf, op.pkt)
      then Stores(before.buf, b, op.pkt, op.now, Last(us) + base, before.x.recoveryBuffer) else b == before.buf
    decreases |ops|
  {
    hide FeedCore, HandleTimer, Tick, FeedFeedback, Follows, Genuine, InTime, Copied, Stores;
    if ops != [] {
      var before, n, op := Run(c, Most(ops)), Newest(newest, Most(ops), Most(us)), Last(ops);
      RunFollows(c, newest, base, Most(ops), Most(us));
      StepFollows(before, n, base, op, Last(us));
      if op.OpFeed? { FeedFollows(before, n, base, op.now, op.path, op.pkt, Last(us)); }
    }
  }
}
