/** The values that cross the flow core's boundary: media packets, feedback,
    requested effects and delivered events (internal/wire, internal/flow/effects.go),
    and the configuration the state machines read. Instants and durations are
    microsecond integers. */
module FlowTypes {
  import opened Serial

  type Byte = x: int | 0 <= x < 256
  type Bytes = seq<Byte>

  datatype Option<T> = None | Some(value: T)

  // A run is read from its end: everything but the last step, and the last step.

  function Most<T>(s: seq<T>): seq<T>
    requires s != []
  {
    s[..|s| - 1]
  }

  function Last<T>(s: seq<T>): T
    requires s != []
  {
    s[|s| - 1]
  }

  datatype FragRole = FragStandalone | FragFirst | FragMiddle | FragLast

  datatype MediaPacket = MediaPacket(
    seqno: u32,
    sourceTime: u64,
    ssrc: u32,
    payload: Bytes,
    retransmit: bool,
    frag: FragRole,
    virtSrcPort: int,
    virtDstPort: int,
    shortSeq: bool)

  datatype Feedback =
    | NackRequest(ssrc: u32, missing: seq<u32>)
    | RttEchoRequest(echoSsrc: u32, timestamp: u64)
    | RttEchoResponse(echoSsrc: u32, timestamp: u64, processingDelay: int)
    | OtherFeedback

  datatype TimerId = TimerPlayout | TimerNack | TimerRttEcho

  datatype Output =
    | SendMedia(path: int, pkt: MediaPacket)
    | SendFeedback(path: int, fb: Feedback)
    | SetTimer(id: TimerId, deadline: int)
    | ClearTimer(id: TimerId)

  datatype Deliver = Deliver(
    seqno: u32,
    sourceTime: u64,
    payload: Bytes,
    discontinuity: bool,
    frag: FragRole,
    virtSrcPort: int,
    virtDstPort: int)

  /** A buffered packet with the timing the playout logic needs. */
  datatype Held = Held(
    seqno: u32,
    sourceTime: u64,
    payload: Bytes,
    frag: FragRole,
    virtSrcPort: int,
    virtDstPort: int,
    arrival: int,
    packetTime: int,
    outputTime: int)

  /** One ring slot. Clearing a slot forgets its contents: every read of a
      slot's fields is guarded by the slot being filled. */
  datatype Slot = Empty | Filled(held: Held)

  datatype TimingMode = TimingSource | TimingArrival | TimingRTC

  datatype CongestionMode = CongestionOff | CongestionNormal | CongestionAggressive

  datatype Config = Config(
    reorderBuffer: int,
    rttMin: int,
    rttMax: int,
    maxRetries: nat,
    missingCounterMax: nat,
    maxNacksPerLoop: int,
    recoveryMaxBitrate: int,
    congestion: CongestionMode,
    timing: TimingMode,
    noRecovery: bool,
    nackSeqsPerSec: real,
    nackTokenBurst: real)

  const NACK_CADENCE: int := 5_000
  const RTT_ECHO_INTERVAL: int := 100_000
  const RIST_MAX_NACKS: int := 200

  function Min(a: int, b: int): int { if a <= b then a else b }
  function Max(a: int, b: int): int { if a <= b then b else a }

  /** Division truncating toward zero, as the source's integer division. */
  function TruncDiv(a: int, b: int): int
    requires b > 0
  {
    if a >= 0 then a / b else -((-a) / b)
  }

  /** A duration times 1.1, truncated toward zero. */
  function Mul110(d: int): int {
    if d >= 0 then (d as real * 1.1).Floor else -((-d) as real * 1.1).Floor
  }

  // ---- the 8x-scaled RTT estimator (internal/rtt) ----

  datatype Estimator = Estimator(eightTimesRtt: int, lastSample: int) {
    function Observe(sample: int): Estimator {
      var s := Max(sample, 0);
      Estimator(eightTimesRtt - TruncDiv(eightTimesRtt, 8) + s, s)
    }
    function Smoothed(): int { TruncDiv(eightTimesRtt, 8) }
    function Clamped(cfg: Config): int { ClampRtt(Smoothed(), cfg) }
    function LastClamped(cfg: Config): int { ClampRtt(lastSample, cfg) }
    function RetryInterval(cfg: Config): int { Mul110(Clamped(cfg)) }
  }

  function ClampRtt(rtt: int, cfg: Config): int {
    var lo := Max(cfg.rttMin, 3000);
    if rtt < lo then lo else if rtt > cfg.rttMax then cfg.rttMax else rtt
  }

  // ---- the host's timers ----

  /** One timer of a host after hearing a sequence of outputs. */
  function Hear(t: Option<int>, id: TimerId, outs: seq<Output>): Option<int> {
    if outs == [] then t
    else match Last(outs)
      case SetTimer(i, d) => if i == id then Some(d) else Hear(t, id, Most(outs))
      case ClearTimer(i) => if i == id then None else Hear(t, id, Most(outs))
      case _ => Hear(t, id, Most(outs))
  }

  // ---- NTP-64 source timestamps (internal/clock) ----

  function NtpToTimestamp(t: u64): int {
    var sec, frac := t / 0x1_0000_0000, t % 0x1_0000_0000;
    sec * 1_000_000 + (frac * 1_000_000 + 0x8000_0000) / 0x1_0000_0000
  }

  function NtpFromTimestamp(ts: int): u64 {
    if ts < 0 then 0 else
    var sec, us := ts / 1_000_000, ts % 1_000_000;
    var frac := (us * 0x1_0000_0000 + 500_000) / 1_000_000;
    ((sec % 0x1_0000_0000) * 0x1_0000_0000 + frac) % 0x1_0000_0000_0000_0000
  }
}
