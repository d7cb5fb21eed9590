/** The sender half of a flow as the source writes it: an object over a history
    array and two bitrate trackers, each entry point proved against SenderSpec. */
module Sender {
  import opened Serial
  import opened FlowTypes
  import opened Bitrate
  import opened SenderSpec

  class FlowSender {
    const cfg: Config
    const ring: array<HistorySlot>
    const dataBW: BitrateEwma
    const retryBW: BitrateEwma
    const ssrc: u32
    const txPath: int
    var est: Estimator
    var started: bool
    var nextSeq: u32
    var outputs: seq<Output>
    var sent: nat
    var retransmitted: nat
    var skipped: nat
    var suppressed: nat
    var bandwidthSkipped: nat
    var exhausted: nat
    var ignored: nat

    ghost predicate Valid()
      reads this
    {
      RingSize(ring.Length) && dataBW != retryBW
    }

    ghost function Abs(): SenderState
      reads this, ring, dataBW, retryBW
    {
      SenderState(cfg, est, ring[..], started, ssrc, nextSeq, txPath, dataBW.Abs(), retryBW.Abs(), outputs,
                  sent, retransmitted, skipped, suppressed, bandwidthSkipped, exhausted, ignored)
    }

    constructor (cfg: Config, est: Estimator, ringSize: int, ssrc: u32, startSeq: u32)
      requires RingSize(ringSize)
      ensures Valid() && fresh(ring) && fresh(dataBW) && fresh(retryBW)
      ensures Abs() == NewSender(cfg, est, ringSize, ssrc, startSeq)
    {
      this.cfg, this.est, this.ssrc, txPath, nextSeq := cfg, est, ssrc, 0, startSeq;
      ring := new HistorySlot[ringSize](_ => Vacant);
      dataBW := new BitrateEwma();
      retryBW := new BitrateEwma();
      started, outputs, sent, retransmitted := false, [], 0, 0;
      skipped, suppressed, bandwidthSkipped, exhausted, ignored := 0, 0, 0, 0, 0;
    }

    /** The first push starts the RTT echo cadence. */
    method Begin(now: int)
      requires Valid()
      modifies this
      ensures Valid() && Abs() == Started(old(Abs()), now)
    {
      hide BitrateEwma.Abs;
      if !started {
        started := true;
        if !cfg.noRecovery {
          outputs := outputs + [SetTimer(TimerRttEcho, now + RTT_ECHO_INTERVAL)];
        }
      }
    }

    /** Keep a packet for retransmission; a later one in the same slot replaces it. */
    method Keep(n: u32, t: u64, payload: Bytes, frag: FragRole)
      requires Valid()
      modifies ring
      ensures Abs() == Retain(old(Abs()), n, t, payload, frag)
    {
      hide BitrateEwma.Abs;
      if !cfg.noRecovery {
        ring[n % ring.Length] := Sent(n, t, payload, frag, 0, false, 0);
      }
    }

    /** Accept one payload for transmission. */
    method PushApp(now: int, payload: Bytes, frag: FragRole, seqno: Option<u32>, sourceTime: Option<u64>)
      requires Valid()
      modifies this, ring, dataBW
      ensures Valid() && Abs() == Push(old(Abs()), now, payload, frag, seqno, sourceTime)
    {
      hide NtpFromTimestamp, BitrateEwma.Abs, Ewma.Feed, Retain;
      Begin(now);
      var n := nextSeq;
      if seqno.Some? {
        n := seqno.value;
      }
      var t := NtpFromTimestamp(now);
      if sourceTime.Some? {
        t := sourceTime.value;
      }
      Keep(n, t, payload, frag);
      outputs := outputs + [SendMedia(txPath, MediaPacket(n, t, ssrc, payload, false, frag, 0, 0, false))];
      dataBW.Feed(now, WireBytes(|payload|));
      nextSeq, sent := Add(n, 1), sent + 1;
    }

    /** Put one requested packet through the gates, re-sending it if all pass. */
    method ServiceOne(now: int, missing: u32, spacing: int) returns (resent: bool)
      requires Valid() && spacing == Spacing(Abs())
      modifies this, ring, retryBW
      ensures Valid() && est == old(est) && Abs() == Service(old(Abs()), now, missing)
      ensures resent == Judge(old(Abs()), now, missing).Resend?
    {
      hide BitrateEwma.Abs, Ewma.Feed, OverBudget, Spacing;
      resent := false;
      var i := missing % ring.Length;
      var sl := ring[i];
      if !(sl.Sent? && sl.seqno == missing) {
        skipped := skipped + 1;
      } else if sl.retried && now - sl.lastRetry < spacing {
        suppressed := suppressed + 1;
      } else if OverBudget(cfg.congestion, dataBW.Abs(), retryBW.Abs(), cfg.recoveryMaxBitrate) {
        bandwidthSkipped := bandwidthSkipped + 1;
      } else if sl.transmitCount >= cfg.maxRetries {
        exhausted := exhausted + 1;
      } else {
        ring[i] := sl.(lastRetry := now, retried := true, transmitCount := sl.transmitCount + 1);
        outputs := outputs +
          [SendMedia(txPath, MediaPacket(sl.seqno, sl.sourceTime, ssrc, sl.payload, true, sl.frag, 0, 0, false))];
        retryBW.Feed(now, WireBytes(|sl.payload|));
        retransmitted := retransmitted + 1;
        resent := true;
      }
    }

    /** Retransmit what can be, in the order asked, up to the per-pass cap. */
    method ServiceNack(now: int, missing: seq<u32>)
      requires Valid()
      modifies this, ring, dataBW, retryBW
      ensures Valid() && Abs() == SenderSpec.ServiceNack(old(Abs()), now, missing)
    {
      hide BitrateEwma.Abs, Ewma.Feed, Service, SenderSpec.Judge, Spacing;
      dataBW.Feed(now, 0);
      retryBW.Feed(now, 0);
      ghost var goal := ServiceFrom(Abs(), now, missing, 0, 0);
      assert goal == SenderSpec.ServiceNack(old(Abs()), now, missing);
      var rtt := est.LastClamped(cfg);
      if cfg.congestion.CongestionAggressive? {
        rtt := 2 * rtt;
      }
      var emitted := 0;
      for i := 0 to |missing|
        invariant Valid() && est == old(est)
        invariant ServiceFrom(Abs(), now, missing, i, emitted) == goal
      {
        SpacingIs(Abs());
        var resent := ServiceOne(now, missing[i], rtt);
        if resent {
          emitted := emitted + 1;
          if emitted >= cfg.maxNacksPerLoop {
            return;
          }
        }
      }
    }

    method FeedFeedback(now: int, fb: Feedback)
      requires Valid()
      modifies this, ring, dataBW, retryBW
      ensures Valid() && Abs() == SenderSpec.FeedFeedback(old(Abs()), now, fb)
    {
      hide BitrateEwma.Abs, SenderSpec.ServiceNack, NtpToTimestamp, TruncDiv;
      match fb
      case RttEchoRequest(echo, t) =>
        outputs := outputs + [SendFeedback(txPath, RttEchoResponse(echo, t, 0))];
      case RttEchoResponse(_, t, delay) =>
        est := est.Observe(now - NtpToTimestamp(t) - delay);
      case NackRequest(_, missing) =>
        ServiceNack(now, missing);
      case OtherFeedback =>
        ignored := ignored + 1;
    }

    method HandleTimer(now: int, id: TimerId)
      requires Valid()
      modifies this
      ensures Valid() && Abs() == SenderSpec.HandleTimer(old(Abs()), now, id)
    {
      hide NtpFromTimestamp;
      if id.TimerRttEcho? && started {
        outputs := outputs + [SendFeedback(txPath, RttEchoRequest(0, NtpFromTimestamp(now)))];
        outputs := outputs + [SetTimer(TimerRttEcho, now + RTT_ECHO_INTERVAL)];
      }
    }
  }

  lemma SpacingIs(s: SenderState)
    ensures Spacing(s) == if s.cfg.congestion.CongestionAggressive? then 2 * s.est.LastClamped(s.cfg)
                          else s.est.LastClamped(s.cfg)
  {
  }
}
