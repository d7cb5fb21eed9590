/** The receiver half of a flow as the source writes it: an object whose entry
    points update fields in place. Each entry point takes the abstract state
    exactly where its step function in ReceiverSpec takes it. */
module Receiver {
  import opened Serial
  import opened FlowTypes
  import opened PlayoutBuffer
  import opened ReceiverSpec
  import opened PlayoutRing
  import opened LossTracker
  import Recovery
  import MissingQueue

  /** The counters and diagnostics of arriving packets; nothing reads them back. */
  class Panel {
    const pathSeen: array<set<int>>
    var ipsLastArrival: int
    var ipsMin: int
    var ipsCur: int
    var ipsMax: int
    var retransmittedReceived: nat
    var tooLate: nat
    var tooLateRetransmit: nat
    var duplicates: nat

    ghost function Abs(): Gauges
      reads this, pathSeen
    {
      Gauges(ipsLastArrival, ipsMin, ipsCur, ipsMax, retransmittedReceived, tooLate, tooLateRetransmit,
             duplicates, pathSeen[..])
    }

    constructor (size: nat)
      ensures fresh(pathSeen) && pathSeen.Length == size
    {
      pathSeen := new set<int>[size](_ => {});
      ipsLastArrival, ipsMin, ipsCur, ipsMax := 0, 0x7FFF_FFFF_FFFF_FFFF, 0, 0;
      retransmittedReceived, tooLate, tooLateRetransmit, duplicates := 0, 0, 0, 0;
    }

    /** Inter-packet spacing, sampled on every arrival; a reset forgets the paths. */
    method Arrival(now: int, started: bool, resets: bool)
      modifies this, pathSeen
      ensures Abs() == Arrived(old(Abs()), started, resets, now)
    {
      if started {
        var delta := now - ipsLastArrival;
        ipsCur := delta;
        if delta < ipsMin {
          ipsMin := delta;
        }
        if delta > ipsMax {
          ipsMax := delta;
        }
      }
      ipsLastArrival := now;
      if resets {
        ForgetPaths();
      }
    }

    method ForgetPaths()
      modifies pathSeen
      ensures pathSeen[..] == seq(pathSeen.Length, i => {})
    {
      for i := 0 to pathSeen.Length
        invariant forall j :: 0 <= j < i ==> pathSeen[j] == {}
      {
        pathSeen[i] := {};
      }
    }

    /** The first accepted copy for slot i came in on this path. */
    method FirstSeen(i: nat, path: int)
      requires i < pathSeen.Length
      modifies pathSeen
      ensures Abs() == old(Abs()).(pathSeen := old(pathSeen[..])[i := {PathBit(path)}])
    {
      pathSeen[i] := {PathBit(path)};
    }

    method Record(v: Verdict, i: nat, path: int, retransmit: bool)
      requires i < pathSeen.Length
      modifies this, pathSeen
      ensures Abs() == Note(old(Abs()), v, i, path, retransmit)
    {
      if retransmit {
        retransmittedReceived := retransmittedReceived + 1;
      }
      match v
      case TooLate =>
        tooLate := tooLate + 1;
        if retransmit {
          tooLateRetransmit := tooLateRetransmit + 1;
        }
      case Duplicate =>
        pathSeen[i] := pathSeen[i] + {PathBit(path)};
        duplicates := duplicates + 1;
      case Accept(_) =>
        pathSeen[i] := {PathBit(path)};
    }
  }

  class FlowReceiver {
    const cfg: Config
    const ring: Ring
    const losses: Tracker
    const panel: Panel

    var est: Estimator
    var recoveryBuffer: int
    var started: bool
    var ssrc: u32
    var lastPath: int
    var clk: Clock
    var playoutArmed: bool
    var playoutDeadline: int
    var outputs: seq<Output>
    var reordered: nat
    var flowResets: nat
    var ignoredFeedback: nat

    // ---- the abstract state ----

    function Ctx(): Recovery.Context
      reads this
    {
      Recovery.Context(cfg, est, recoveryBuffer)
    }

    ghost predicate Valid()
      reads this, ring, ring.slots, losses, losses.queue, losses.queue.Repr, panel
    {
      && losses.Valid() && ring.Valid() && panel.pathSeen.Length == ring.slots.Length > 0
      && (!started ==> ring.Abs().NothingBuffered())
    }

    ghost function Abs(): Core
      reads this, ring, ring.slots, losses, losses.queue, losses.queue.Repr, panel
      requires Valid()
    {
      Core(Ctx(), started, ssrc, lastPath, clk, ring.Abs(), losses.Abs(), playoutArmed, playoutDeadline,
           outputs, reordered, flowResets, ignoredFeedback)
    }

    constructor (cfg: Config, est: Estimator, recoveryBuffer: int, ringSize: int)
      requires RingSize(ringSize)
      ensures Valid() && fresh(ring) && fresh(ring.slots) && fresh(losses) && fresh(losses.queue) && losses.queue.Repr == {}
      ensures fresh(panel) && fresh(panel.pathSeen)
      ensures Abs() == NewCore(cfg, est, recoveryBuffer, ringSize)
    {
      this.cfg, this.est, this.recoveryBuffer := cfg, est, recoveryBuffer;
      ring := new Ring(ringSize);
      losses := new Tracker(cfg);
      panel := new Panel(ringSize);
      started, ssrc, lastPath, clk := false, 0, 0, Clock(0, false, 0, 0, 0, 0, 0);
      playoutArmed, playoutDeadline, outputs := false, 0, [];
      reordered, flowResets, ignoredFeedback := 0, 0, 0;
    }

    // ---- timers ----

    method ArmPlayout(deadline: int)
      requires Valid()
      modifies this
      ensures Valid() && Abs() == Arm(old(Abs()), deadline)
    {
      hide Tracker.Valid, Tracker.Abs, Ring.Valid, Ring.Abs;
      if playoutArmed && deadline >= playoutDeadline {
        return;
      }
      playoutArmed := true;
      playoutDeadline := deadline;
      outputs := outputs + [SetTimer(TimerPlayout, deadline)];
    }

    method DisarmPlayout()
      requires Valid()
      modifies this
      ensures Valid() && Abs() == Disarm(old(Abs()))
    {
      hide Tracker.Valid, Tracker.Abs, Ring.Valid, Ring.Abs;
      if !playoutArmed {
        return;
      }
      playoutArmed := false;
      outputs := outputs + [ClearTimer(TimerPlayout)];
    }

    method ArmNack(now: int)
      requires Valid()
      modifies this, losses
      ensures Valid() && Abs() == ScheduleNack(old(Abs()), now)
    {
      hide Tracker.Valid, Tracker.Abs, Ring.Valid, Ring.Abs;
      if !losses.WantsTimer() {
        return;
      }
      losses.SetArmed(true);
      outputs := outputs + [SetTimer(TimerNack, now + NACK_CADENCE)];
    }

    // ---- arrivals ----

    /** Discard the flow; the next packet anchors a new one. */
    method ResetFlow()
      requires Valid()
      modifies this, ring, ring.slots, losses, losses.queue, losses.queue.Repr
      ensures Valid() && fresh(losses.queue.Repr - old(losses.queue.Repr))
      ensures Abs() == Reset(old(Abs()))
    {
      hide Tracker.Valid, Tracker.Abs, Ring.Valid;
      ring.Clear();
      losses.Clear();
      started := false;
      playoutArmed := false;
    }

    /** The clock sees the packet; the result is its local playout base. */
    method ObserveClock(now: int, pkt: MediaPacket) returns (packetTime: int)
      requires Valid()
      modifies this`clk
      ensures Valid() && Abs() == old(Abs()).(clk := Track(old(clk), Ctx(), now, pkt).0)
      ensures packetTime == Track(old(clk), Ctx(), now, pkt).1
    {
      hide Tracker.Valid, Tracker.Abs, Ring.Valid, Ring.Abs, NtpToTimestamp;
      if cfg.timing.TimingArrival? {
        packetTime := now;
      } else {
        packetTime := NtpToTimestamp(pkt.sourceTime) + clk.offset;
        if cfg.timing.TimingSource? && !pkt.retransmit && pkt.sourceTime < clk.maxSourceTime &&
           clk.maxSourceTime - pkt.sourceTime > SRC_WRAP_HALF_NTP && now - clk.lastResync >= 3 * recoveryBuffer {
          clk := clk.(offset := clk.offset + SRC_WRAP_PERIOD_MICROS);
          packetTime := NtpToTimestamp(pkt.sourceTime) + clk.offset;
          clk := clk.(maxSourceTime := pkt.sourceTime, lastPacketTime := packetTime, lastResync := now,
                      clockResync := clk.clockResync + 1);
        }
      }
      if pkt.sourceTime > clk.maxSourceTime {
        clk := clk.(maxSourceTime := pkt.sourceTime, lastPacketTime := packetTime);
      }
    }

    /** Lock the cursors and the clock onto the first packet. */
    method Anchor(now: int, path: int, pkt: MediaPacket)
      requires Valid() && !started
      modifies this, ring, ring.slots, losses, losses.queue, losses.queue.Repr
      ensures Valid() && losses.queue.Repr == old(losses.queue.Repr)
      ensures Abs() == Anchored(old(Abs()), now, path, pkt) && Abs().x == old(Abs()).x
    {
      hide Tracker.Valid, Tracker.Abs, Ring.Valid, NtpToTimestamp;
      ghost var c := Abs();
      ring.Anchor(Hold(pkt, now, now, recoveryBuffer));
      assert losses.Abs() == c.arq;
      losses.Found(pkt.seqno);
      started, ssrc, lastPath := true, pkt.ssrc, path;
      clk := clk.(offset := now - NtpToTimestamp(pkt.sourceTime), shortSeq := pkt.shortSeq,
                  maxSourceTime := pkt.sourceTime, lastPacketTime := now, lastResync := now);
    }

    /** The first packet anchors the flow. */
    method Begin(now: int, path: int, pkt: MediaPacket)
      requires Valid() && !started
      modifies this, ring, ring.slots, losses, losses.queue, losses.queue.Repr
      ensures Valid() && losses.queue.Repr == old(losses.queue.Repr)
      ensures Abs() == Start(old(Abs()), now, path, pkt)
    {
      hide Tracker.Valid, Tracker.Abs, Ring.Valid, Ring.Abs, Anchored;
      var due := now + recoveryBuffer;
      Anchor(now, path, pkt);
      ArmPlayout(due);
      if !cfg.noRecovery {
        outputs := outputs + [SetTimer(TimerRttEcho, now + RTT_ECHO_INTERVAL)];
      }
    }

    /** Look for a gap before an accepted packet and advance past it. */
    method Follow(now: int, path: int, pkt: MediaPacket, packetTime: int, outOfOrder: bool)
      requires Valid()
      modifies losses, losses.queue, losses.queue.Repr
      ensures Valid() && fresh(losses.queue.Repr - old(losses.queue.Repr)) && ring.Abs() == old(ring.Abs())
      ensures losses.Abs() ==
        var a := old(losses.Abs());
        var marked := if pkt.retransmit || outOfOrder || Add(a.lastFound, 1) == pkt.seqno then a
                      else Recovery.MarkMissing(a, Ctx(), ring.Abs().ring, clk.shortSeq, now, path, pkt.seqno, packetTime);
        if pkt.retransmit || outOfOrder then marked else marked.(lastFound := pkt.seqno)
    {
      hide Tracker.Valid, Ring.Valid, MissingQueue.Fifo.Valid, MissingQueue.Fifo.Contents, Recovery.MarkMissing;
      if !pkt.retransmit {
        if !outOfOrder && Add(losses.lastFound, 1) != pkt.seqno {
          losses.Mark(Ctx(), ring.slots, clk.shortSeq, now, path, pkt.seqno, packetTime);
        }
        if !outOfOrder {
          losses.Found(pkt.seqno);
        }
      }
    }

    /** Buffer an accepted packet and look for a gap before it. */
    method Store(now: int, path: int, pkt: MediaPacket, packetTime: int, outOfOrder: bool)
      requires Valid() && started && !Less(pkt.seqno, ring.deliverNext)
      modifies this, ring, ring.slots, losses, losses.queue, losses.queue.Repr
      ensures Valid() && fresh(losses.queue.Repr - old(losses.queue.Repr))
      ensures Abs() == Absorb(old(Abs()), now, path, pkt, packetTime, outOfOrder)
    {
      hide Tracker.Valid, Tracker.Abs, Ring.Valid, Ring.Abs, Recovery.MarkMissing, Insert;
      ghost var c := Abs();
      ring.Put(Hold(pkt, now, packetTime, recoveryBuffer));
      assert losses.Abs() == c.arq;
      Follow(now, path, pkt, packetTime, outOfOrder);
      if outOfOrder {
        reordered := reordered + 1;
      }
      lastPath := path;
    }

    /** Take an accepted packet in, and set the timers. */
    method Accept(now: int, path: int, pkt: MediaPacket, packetTime: int, outOfOrder: bool)
      requires Valid() && started && !Less(pkt.seqno, ring.deliverNext)
      modifies this, ring, ring.slots, losses, losses.queue, losses.queue.Repr
      ensures Valid() && fresh(losses.queue.Repr - old(losses.queue.Repr))
      ensures Abs() == Admit(old(Abs()), now, path, pkt, packetTime, outOfOrder)
    {
      hide Tracker.Valid, Tracker.Abs, Ring.Valid, Ring.Abs, Absorb, Arm, ScheduleNack;
      var due := packetTime + recoveryBuffer;
      Store(now, path, pkt, packetTime, outOfOrder);
      ArmPlayout(due);
      ArmNack(now);
    }

    /** Re-anchor on a change of flow or of framing. */
    method PrepareFor(now: int, pkt: MediaPacket)
      requires Valid()
      modifies this, ring, ring.slots, losses, losses.queue, losses.queue.Repr
      ensures Valid() && fresh(losses.queue.Repr - old(losses.queue.Repr))
      ensures Abs() == Prepare(old(Abs()), now, pkt)
    {
      hide Tracker.Valid, Tracker.Abs, Ring.Valid, Ring.Abs, NtpToTimestamp, FlowId;
      if started && !pkt.retransmit && FlowId(pkt.ssrc) != FlowId(ssrc) {
        ResetFlow();
        flowResets := flowResets + 1;
      }
      if started && !pkt.retransmit && pkt.shortSeq != clk.shortSeq {
        clk := clk.(offset := now - NtpToTimestamp(pkt.sourceTime), shortSeq := pkt.shortSeq,
                    maxSourceTime := pkt.sourceTime, lastPacketTime := now, lastResync := now,
                    framingResets := clk.framingResets + 1);
      }
    }

    /** What becomes of a packet once the clock has seen it. */
    method Decide(now: int, pkt: MediaPacket, packetTime: int) returns (v: Verdict)
      requires Valid()
      ensures v == Judge(Abs(), now, pkt, packetTime)
    {
      hide Mul110;
      var outOfOrder := false;
      if !cfg.timing.TimingArrival? && packetTime < clk.lastPacketTime && pkt.seqno != Add(losses.lastFound, 1) {
        if now > packetTime + Mul110(recoveryBuffer) {
          return TooLate;
        }
        if !pkt.retransmit {
          outOfOrder := true;
        }
      }
      if Less(pkt.seqno, ring.deliverNext) {
        return TooLate;
      }
      var s := ring.slots[pkt.seqno % ring.slots.Length];
      if s.Filled? && s.held.seqno == pkt.seqno && s.held.sourceTime == pkt.sourceTime {
        return Duplicate;
      }
      return Verdict.Accept(outOfOrder);
    }

    /** A packet of a started flow. */
    method FeedRunning(now: int, path: int, pkt: MediaPacket) returns (v: Verdict)
      requires Valid() && started
      modifies this, ring, ring.slots, losses, losses.queue, losses.queue.Repr
      ensures Valid() && fresh(losses.queue.Repr - old(losses.queue.Repr))
      ensures Abs() == FeedStarted(old(Abs()), now, path, pkt) && v == VerdictOn(old(Abs()), now, pkt)
    {
      hide Tracker.Valid, Tracker.Abs, Ring.Valid, Admit, Track;
      var packetTime := ObserveClock(now, pkt);
      v := Decide(now, pkt, packetTime);
      if v.Accept? {
        Accept(now, path, pkt, packetTime, v.outOfOrder);
      }
    }

    /** Ingest one media packet. */
    method Feed(now: int, path: int, pkt: MediaPacket)
      requires Valid()
      modifies this, ring, ring.slots, losses, losses.queue, losses.queue.Repr, panel, panel.pathSeen
      ensures Valid() && fresh(losses.queue.Repr - old(losses.queue.Repr))
      ensures Abs() == FeedCore(old(Abs()), now, path, pkt)
      ensures panel.Abs() == FeedGauges(old(panel.Abs()), old(Abs()), now, path, pkt)
    {
      hide Tracker.Valid, Tracker.Abs, Ring.Valid, Prepare, Arrived, FeedStarted, VerdictOn, Note, Start, FlowId;
      panel.Arrival(now, started, started && !pkt.retransmit && FlowId(pkt.ssrc) != FlowId(ssrc));
      PrepareFor(now, pkt);
      if started {
        var v := FeedRunning(now, path, pkt);
        panel.Record(v, pkt.seqno % ring.slots.Length, path, pkt.retransmit);
      } else if !pkt.retransmit {
        Begin(now, path, pkt);
        panel.FirstSeen(pkt.seqno % ring.slots.Length, path);
      }
    }

    // ---- the other entry points ----

    method DeliverReady(now: int)
      requires Valid()
      modifies this, ring, ring.slots
      ensures Valid() && Abs() == DeliverDue(old(Abs()), now)
    {
      hide Tracker.Valid, Tracker.Abs, Ring.Valid, Ring.Abs, Drain;
      if !started {
        return;
      }
      var wake := ring.DeliverDue(now);
      match wake
      case WakeAt(deadline) => ArmPlayout(deadline);
      case Idle => DisarmPlayout();
    }

    method ProcessNacks(now: int)
      requires Valid()
      modifies this, losses, losses.queue, losses.queue.Repr
      ensures Valid() && fresh(losses.queue.Repr - old(losses.queue.Repr)) && Abs() == NackPass(old(Abs()), now)
    {
      hide Tracker.Valid, Tracker.Abs, Ring.Valid, Recovery.ProcessNacks;
      var batch := losses.Process(Ctx(), ring.slots, now);
      if |batch| > 0 {
        outputs := outputs + [SendFeedback(lastPath, NackRequest(ssrc, batch))];
      }
    }

    method HandleTimer(now: int, id: TimerId, rescaled: int)
      requires Valid()
      modifies this, ring, ring.slots, losses, losses.queue, losses.queue.Repr
      ensures Valid() && fresh(losses.queue.Repr - old(losses.queue.Repr))
      ensures Abs() == ReceiverSpec.HandleTimer(old(Abs()), now, id, rescaled)
    {
      hide Tracker.Valid, Tracker.Abs, Ring.Valid, Ring.Abs, DeliverDue, NackPass, NtpFromTimestamp, ScheduleNack;
      match id
      case TimerPlayout =>
        playoutArmed := false;
        DeliverReady(now);
      case TimerNack =>
        losses.SetArmed(false);
        ProcessNacks(now);
        ArmNack(now);
      case TimerRttEcho =>
        if started {
          outputs := outputs + [SendFeedback(lastPath, RttEchoRequest(0, NtpFromTimestamp(now))),
                                SetTimer(TimerRttEcho, now + RTT_ECHO_INTERVAL)];
          recoveryBuffer := rescaled;
        }
    }

    method Tick(now: int)
      requires Valid()
      modifies this, ring, ring.slots, losses, losses.queue, losses.queue.Repr
      ensures Valid() && fresh(losses.queue.Repr - old(losses.queue.Repr))
      ensures Abs() == ReceiverSpec.Tick(old(Abs()), now)
    {
      hide Tracker.Valid, Tracker.Abs, Ring.Valid, Ring.Abs, DeliverDue, NackPass;
      DeliverReady(now);
      ProcessNacks(now);
    }

    method FeedFeedback(now: int, fb: Feedback)
      requires Valid()
      modifies this
      ensures Valid() && Abs() == ReceiverSpec.FeedFeedback(old(Abs()), now, fb)
    {
      hide Tracker.Valid, Tracker.Abs, Ring.Valid, Ring.Abs, NtpToTimestamp, TruncDiv;
      match fb
      case RttEchoRequest(echo, t) =>
        outputs := outputs + [SendFeedback(lastPath, RttEchoResponse(echo, t, 0))];
      case RttEchoResponse(_, t, delay) =>
        est := est.Observe(now - NtpToTimestamp(t) - delay);
      case NackRequest(_, _) =>
        ignoredFeedback := ignoredFeedback + 1;
      case OtherFeedback =>
        ignoredFeedback := ignoredFeedback + 1;
    }
  }
}
