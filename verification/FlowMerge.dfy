/** The 2022-7 multipath merge: feeding a further copy of an accepted packet is a
    stutter. Removing every such copy from a run leaves the whole system, and so
    every delivery, every request and every timer, exactly as it was. */
module FlowMerge {
  import opened Serial
  import opened FlowTypes
  import opened PlayoutBuffer
  import opened ReceiverSpec
  import opened ReceiverProps
  import opened FlowSystem
  import Snd = SenderSpec

  /** What the merge assumes of a stream: one framing, and source times within half
      the 32-bit wrap of each other. */
  datatype Stream = Stream(lo: u64, shortSeq: bool) {
    predicate InSpan(t: u64) { lo <= t <= lo + SRC_WRAP_HALF_NTP }
  }

  predicate ItemsInSpan(st: Stream, pushed: seq<Item>) {
    forall i :: 0 <= i < |pushed| ==> st.InSpan(pushed[i].sourceTime)
  }

  predicate ClockInSpan(st: Stream, c: Core) {
    c.started ==> st.InSpan(c.clk.maxSourceTime) && c.clk.shortSeq == st.shortSeq
  }

  predicate Merging(sys: System, st: Stream) {
    && Ok(sys) && WakesInTime(sys.rcv)
    && ItemsInSpan(st, sys.pushed) && ClockInSpan(st, sys.rcv)
  }

  lemma NewMerging(cfg: Config, est: Estimator, recoveryBuffer: int, ringSize: int, ssrc: u32, base: u32, st: Stream)
    requires RingSize(ringSize) && cfg.nackSeqsPerSec >= 0.0 && cfg.nackTokenBurst >= 0.0
    ensures Merging(NewSystem(cfg, est, recoveryBuffer, ringSize, ssrc, base), st)
  {
    NewSystemInitial(cfg, est, recoveryBuffer, ringSize, ssrc, base);
    InitialOk(NewSystem(cfg, est, recoveryBuffer, ringSize, ssrc, base));
    NewWakes(cfg, est, recoveryBuffer, ringSize);
  }

  /** The action keeps to the stream and to the window. */
  predicate Admissible(sys: System, st: Stream, a: Action)
    requires Ok(sys)
  {
    && (a.PushApp? ==> |sys.pushed| < HALF)
    && (a.PushApp? ==> st.InSpan(if a.sourceTime.Some? then a.sourceTime.value else NtpFromTimestamp(a.now)))
    && (a.MediaArrives? ==> a.shortSeq == st.shortSeq)
    && (ReceiverOp(sys, a).Some? ==> InWindow(sys.rcv, ReceiverOp(sys, a).value))
  }

  /** s was accepted: it is still buffered, or the cursor has passed it. */
  predicate Kept(c: Core, base: u32, pushed: seq<Item>, s: u32) {
    && c.started && c.buf.Valid()
    && Fwd(base, s) < |pushed|
    && (c.buf.Holds(s) || Fwd(base, s) < Fwd(base, c.buf.deliverNext))
    && pushed[Fwd(base, s)].sourceTime <= c.clk.maxSourceTime
  }

  // ---- a copy changes nothing ----

  lemma CopyStutters(c: Core, base: u32, pushed: seq<Item>, st: Stream, now: int, path: int, pkt: MediaPacket)
    requires ReceiverOk(c, base, pushed, pkt.ssrc) && |pushed| <= HALF
    requires Matches(base, pushed, pkt.seqno, pkt.sourceTime, pkt.payload, pkt.frag)
    requires ItemsInSpan(st, pushed) && ClockInSpan(st, c) && pkt.shortSeq == st.shortSeq
    requires Kept(c, base, pushed, pkt.seqno)
    ensures FeedCore(c, now, path, pkt) == c
  {
    hide Admit, Start;
    assert Prepare(c, now, pkt) == c;
    assert st.InSpan(pushed[Fwd(base, pkt.seqno)].sourceTime);
    assert !Wraps(c.clk, c.x, now, pkt);
    var (clk, packetTime) := Track(c.clk, c.x, now, pkt);
    assert clk == c.clk;
    if c.buf.Holds(pkt.seqno) {
      assert GenuineHeld(base, pushed, c.buf.ring[pkt.seqno % |c.buf.ring|]);
    }
    assert !Judge(c, now, pkt, packetTime).Accept?;
  }

  // ---- an accepted packet stays accepted ----

  /** A buffered packet is still buffered after a drain, or among those played. */
  lemma HeldOrPlayed(b: Buffer, now: int, s: u32)
    requires b.Valid() && b.Windowed() && b.Holds(s)
    ensures var (r, q, m) := (Drain(b, now).0, Queue(b), DueCount(Queue(b), now));
      || r.Holds(s)
      || (m > 0 && Fwd(b.deliverNext, s) <= Fwd(b.deliverNext, q[m - 1].seqno) <= b.Ahead()
          && r.deliverNext == Add(q[m - 1].seqno, 1))
  {
    hide Drain, Queue, DueCount;
    DrainSplitsQueue(b, now);
    var m := DueCount(Queue(b), now);
    var i := QueueIndex(b, s);
    if i >= m {
      QueueHolds(Drain(b, now).0, i - m);
    } else {
      QueueOrder(b, i, m - 1);
    }
  }

  lemma DrainSplitsQueue(b: Buffer, now: int)
    requires b.Valid() && b.Windowed()
    ensures var (r, q, m) := (Drain(b, now).0, Queue(b), DueCount(Queue(b), now));
      Queue(r) == q[m..] && (m > 0 ==> r.deliverNext == Add(q[m - 1].seqno, 1))
  {
    DrainPlaysDuePrefix(b, now);
  }

  lemma DrainKeeps(b: Buffer, base: u32, pushed: seq<Item>, now: int, s: u32)
    requires Tracks(b, base, pushed) && b.Windowed() && Fwd(base, s) < |pushed|
    requires b.Holds(s) || Fwd(base, s) < Fwd(base, b.deliverNext)
    ensures var r := Drain(b, now).0;
      r.Holds(s) || Fwd(base, s) < Fwd(base, r.deliverNext)
  {
    if b.Holds(s) {
      HeldOrPlayed(b, now, s);
      var q, m := Queue(b), DueCount(Queue(b), now);
      if !Drain(b, now).0.Holds(s) {
        PassedBy(base, b.deliverNext, s, q[m - 1].seqno, b.Ahead(), |pushed|);
      }
    } else {
      DrainAccounts(b, now);
    }
  }

  /** Past the last delivered sequence the cursor is past every earlier one. */
  lemma PassedBy(base: u32, c: u32, s: u32, last: u32, ahead: int, n: int)
    requires Fwd(c, s) <= Fwd(c, last) <= ahead && Fwd(base, c) + ahead < n <= HALF && Fwd(base, s) < n
    ensures Fwd(base, s) < Fwd(base, Add(last, 1))
  {
  }

  lemma FeedStartedKeeps(c: Core, base: u32, pushed: seq<Item>, st: Stream, now: int, path: int, pkt: MediaPacket, s: u32)
    requires Valid(c) && c.started && c.buf.Windowed()
    requires Fwd(base, pkt.seqno) < |pushed| && pushed[Fwd(base, pkt.seqno)].sourceTime == pkt.sourceTime
    requires st.InSpan(pkt.sourceTime) && ClockInSpan(st, c) && pkt.shortSeq == st.shortSeq
    requires Prepare(c, now, pkt) == c && InWindow(c, OpFeed(now, path, pkt))
    ensures var r := FeedStarted(c, now, path, pkt);
      && ClockInSpan(st, r)
      && (r.buf.Valid() && Kept(c, base, pushed, s) ==> Kept(r, base, pushed, s))
      && (r.buf.Valid() && Accepts(c, now, pkt) ==> Kept(r, base, pushed, pkt.seqno))
  {
    hide Admit, NtpToTimestamp, Mul110;
    assert !Wraps(c.clk, c.x, now, pkt);
    var (clk, packetTime) := Track(c.clk, c.x, now, pkt);
    var c2 := c.(clk := clk);
    assert clk.maxSourceTime == Max(c.clk.maxSourceTime, pkt.sourceTime) && clk.shortSeq == st.shortSeq;
    match Judge(c2, now, pkt, packetTime)
    case Accept(o) =>
      AdmitInserts(c2, now, path, pkt, packetTime, o);
      AdmitKeepsFlow(c2, now, path, pkt, packetTime, o);
      if c.buf.Holds(s) { InsertKeeps(c.buf, Hold(pkt, now, packetTime, c.x.recoveryBuffer), s); }
    case _ =>
  }

  lemma FeedKeeps(c: Core, base: u32, pushed: seq<Item>, st: Stream, now: int, path: int, pkt: MediaPacket, s: u32)
    requires ReceiverOk(c, base, pushed, pkt.ssrc) && |pushed| <= HALF && c.buf.Windowed()
    requires Matches(base, pushed, pkt.seqno, pkt.sourceTime, pkt.payload, pkt.frag)
    requires ItemsInSpan(st, pushed) && ClockInSpan(st, c) && pkt.shortSeq == st.shortSeq
    requires InWindow(c, OpFeed(now, path, pkt))
    ensures var r := FeedCore(c, now, path, pkt);
      && ClockInSpan(st, r)
      && (Kept(c, base, pushed, s) ==> Kept(r, base, pushed, s))
      && (Accepts(c, now, pkt) ==> Kept(r, base, pushed, pkt.seqno))
  {
    hide FeedStarted, Tracks, NtpToTimestamp;
    assert st.InSpan(pushed[Fwd(base, pkt.seqno)].sourceTime);
    FeedValid(c, now, path, pkt);
    if c.started {
      assert Prepare(c, now, pkt) == c;
      FeedStartedKeeps(c, base, pushed, st, now, path, pkt, s);
    }
  }

  lemma DeliverKeeps(c: Core, base: u32, pushed: seq<Item>, ssrc: u32, now: int, s: u32)
    requires ReceiverOk(c, base, pushed, ssrc) && c.buf.Windowed() && Kept(c, base, pushed, s)
    ensures Kept(DeliverDue(c, now), base, pushed, s)
  {
    hide Drain, Tracks;
    DrainKeeps(c.buf, base, pushed, now, s);
  }

  lemma ActKeeps(sys: System, st: Stream, a: Action, s: u32)
    requires Merging(sys, st) && Admissible(sys, st, a)
    ensures Merging(Act(sys, a), st)
    ensures Kept(sys.rcv, sys.base, sys.pushed, s) ==>
      Kept(Act(sys, a).rcv, sys.base, Act(sys, a).pushed, s)
  {
    hide Tracks, FeedCore, DeliverDue, InWindow, WakesInTime, NtpFromTimestamp, Snd.FeedFeedback, Kept;
    ActOk(sys, a);
    var op := ReceiverOp(sys, a);
    if op.Some? {
      StepWakes(sys.rcv, op.value);
      if Kept(sys.rcv, sys.base, sys.pushed, s) { StepKeeps(sys, st, a, s); }
      StepClock(sys, st, a);
    } else if Kept(sys.rcv, sys.base, sys.pushed, s) {
      KeptGrows(sys.rcv, sys.base, sys.pushed, Act(sys, a).pushed, s);
    }
  }

  lemma KeptGrows(c: Core, base: u32, pushed: seq<Item>, pushed': seq<Item>, s: u32)
    requires Kept(c, base, pushed, s) && pushed <= pushed'
    ensures Kept(c, base, pushed', s)
  {
  }

  lemma StepClock(sys: System, st: Stream, a: Action)
    requires Merging(sys, st) && Admissible(sys, st, a) && ReceiverOp(sys, a).Some?
    ensures ClockInSpan(st, Step(sys.rcv, ReceiverOp(sys, a).value))
  {
    hide Tracks, FeedCore, Drain, NtpFromTimestamp;
    if a.MediaArrives? {
      assert GenuineOutput(sys.base, sys.pushed, sys.snd.ssrc, sys.snd.outputs[a.k]);
      FeedKeeps(sys.rcv, sys.base, sys.pushed, st, a.now, a.path, Arriving(sys, a), 0);
    }
  }

  lemma ArrivalKeeps(sys: System, st: Stream, a: Action, s: u32)
    requires Merging(sys, st) && Admissible(sys, st, a) && ReceiverOp(sys, a).Some? && a.MediaArrives?
    requires Kept(sys.rcv, sys.base, sys.pushed, s)
    ensures Kept(Step(sys.rcv, ReceiverOp(sys, a).value), sys.base, sys.pushed, s)
  {
    hide Tracks, FeedCore, NtpFromTimestamp, Kept, Drain;
    assert GenuineOutput(sys.base, sys.pushed, sys.snd.ssrc, sys.snd.outputs[a.k]);
    FeedKeeps(sys.rcv, sys.base, sys.pushed, st, a.now, a.path, Arriving(sys, a), s);
  }

  /** Only the buffer, the clock and having started matter. */
  lemma SameKept(c: Core, r: Core, base: u32, pushed: seq<Item>, s: u32)
    requires Kept(c, base, pushed, s) && r.started == c.started && r.buf == c.buf && r.clk == c.clk
    ensures Kept(r, base, pushed, s)
  {
  }

  lemma TimerKeeps(c: Core, base: u32, pushed: seq<Item>, ssrc: u32, now: int, id: TimerId, rescaled: int, s: u32)
    requires ReceiverOk(c, base, pushed, ssrc) && c.buf.Windowed() && Kept(c, base, pushed, s)
    ensures Kept(HandleTimer(c, now, id, rescaled), base, pushed, s)
  {
    hide Tracks, DeliverDue, NtpFromTimestamp, Kept;
    if id.TimerPlayout? {
      SameKept(c, c.(playoutArmed := false), base, pushed, s);
      DeliverKeeps(c.(playoutArmed := false), base, pushed, ssrc, now, s);
    } else {
      SameKept(c, HandleTimer(c, now, id, rescaled), base, pushed, s);
    }
  }

  lemma TickKeeps(c: Core, base: u32, pushed: seq<Item>, ssrc: u32, now: int, s: u32)
    requires ReceiverOk(c, base, pushed, ssrc) && c.buf.Windowed() && Kept(c, base, pushed, s)
    ensures Kept(Tick(c, now), base, pushed, s)
  {
    hide Tracks, DeliverDue, Kept;
    DeliverKeeps(c, base, pushed, ssrc, now, s);
    SameKept(DeliverDue(c, now), Tick(c, now), base, pushed, s);
  }

  lemma StepKeeps(sys: System, st: Stream, a: Action, s: u32)
    requires Merging(sys, st) && Admissible(sys, st, a) && ReceiverOp(sys, a).Some?
    requires Kept(sys.rcv, sys.base, sys.pushed, s)
    ensures Kept(Step(sys.rcv, ReceiverOp(sys, a).value), sys.base, sys.pushed, s)
  {
    hide Tracks, FeedCore, HandleTimer, Tick, NtpFromTimestamp, NtpToTimestamp, InWindow, Kept;
    match a
    case MediaArrives(_, _, _, _, _, _) => ArrivalKeeps(sys, st, a, s);
    case ReceiverTimer(now, id, rescaled) =>
      TimerKeeps(sys.rcv, sys.base, sys.pushed, sys.snd.ssrc, now, id, rescaled, s);
    case ReceiverTick(now) => TickKeeps(sys.rcv, sys.base, sys.pushed, sys.snd.ssrc, now, s);
    case ReceiverFeedback(_, _) =>
      SameKept(sys.rcv, Step(sys.rcv, ReceiverOp(sys, a).value), sys.base, sys.pushed, s);
  }

  // ---- runs ----

  predicate RunAdmissible(sys: System, st: Stream, acts: seq<Action>)
    requires Ok(sys) && |sys.pushed| + Pushes(acts) <= HALF
  {
    acts == [] ||
    (RunAdmissible(sys, st, Most(acts)) && Admissible(RunAll(sys, Most(acts)), st, Last(acts)))
  }

  predicate Delivers(sys: System, a: Action) {
    a.MediaArrives? && a.k < |sys.snd.outputs| && sys.snd.outputs[a.k].SendMedia?
  }

  /** The sequences accepted during a run. */
  function Seen(sys: System, acts: seq<Action>): set<u32>
    requires Ok(sys) && |sys.pushed| + Pushes(acts) <= HALF
  {
    if acts == [] then {} else
    var before, a := RunAll(sys, Most(acts)), Last(acts);
    Seen(sys, Most(acts)) +
    (if Delivers(before, a) && Accepts(before.rcv, a.now, Arriving(before, a)) then {Arriving(before, a).seqno} else {})
  }

  lemma {:induction false} SeenKept(sys: System, st: Stream, acts: seq<Action>)
    requires Ok(sys) && Merging(sys, st) && |sys.pushed| + Pushes(acts) <= HALF && RunAdmissible(sys, st, acts)
    ensures Merging(RunAll(sys, acts), st)
    ensures forall s :: s in Seen(sys, acts) ==> Kept(RunAll(sys, acts).rcv, sys.base, RunAll(sys, acts).pushed, s)
  {
    hide Act, Kept, Admissible, Accepts, Merging, Ok, Arriving;
    if acts == [] {
    } else {
      var before, a := RunAll(sys, Most(acts)), Last(acts);
      SeenKept(sys, st, Most(acts));
      ActKeeps(before, st, a, 0);
      forall s | s in Seen(sys, acts) ensures Kept(RunAll(sys, acts).rcv, sys.base, RunAll(sys, acts).pushed, s) {
        ActKeeps(before, st, a, s);
        if s !in Seen(sys, Most(acts)) { AcceptedIsKept(before, st, a); }
      }
    }
  }

  lemma AcceptedIsKept(sys: System, st: Stream, a: Action)
    requires Merging(sys, st) && Admissible(sys, st, a)
    requires Delivers(sys, a) && Accepts(sys.rcv, a.now, Arriving(sys, a))
    ensures Kept(Act(sys, a).rcv, sys.base, Act(sys, a).pushed, Arriving(sys, a).seqno)
  {
    hide Tracks, FeedCore, Accepts, NtpFromTimestamp;
    assert GenuineOutput(sys.base, sys.pushed, sys.snd.ssrc, sys.snd.outputs[a.k]);
    FeedKeeps(sys.rcv, sys.base, sys.pushed, st, a.now, a.path, Arriving(sys, a), 0);
  }

  /** The run with every further copy of an accepted packet removed. */
  function Deduplicated(sys: System, acts: seq<Action>): (r: seq<Action>)
    requires Ok(sys) && |sys.pushed| + Pushes(acts) <= HALF
    ensures Pushes(r) == Pushes(acts)
  {
    if acts == [] then [] else
    var before, a := RunAll(sys, Most(acts)), Last(acts);
    var d := Deduplicated(sys, Most(acts));
    if Delivers(before, a) && Arriving(before, a).seqno in Seen(sys, Most(acts)) then d
    else
      assert Most(d + [a]) == d && Last(d + [a]) == a;
      d + [a]
  }

  lemma CopyActStutters(sys: System, st: Stream, a: Action)
    requires Merging(sys, st) && Admissible(sys, st, a) && Delivers(sys, a)
    requires Kept(sys.rcv, sys.base, sys.pushed, Arriving(sys, a).seqno)
    ensures Act(sys, a) == sys
  {
    hide Tracks, FeedCore, NtpFromTimestamp;
    assert GenuineOutput(sys.base, sys.pushed, sys.snd.ssrc, sys.snd.outputs[a.k]);
    CopyStutters(sys.rcv, sys.base, sys.pushed, st, a.now, a.path, Arriving(sys, a));
  }

  /** Feeding extra copies, from any path, at any time, changes nothing at all. */
  lemma {:induction false} MergeIsStuttering(sys: System, st: Stream, acts: seq<Action>)
    requires Ok(sys) && Merging(sys, st) && |sys.pushed| + Pushes(acts) <= HALF && RunAdmissible(sys, st, acts)
    ensures RunAll(sys, Deduplicated(sys, acts)) == RunAll(sys, acts)
  {
    hide Act, Kept, Admissible, Seen, Accepts, Merging, Ok, Arriving;
    if acts != [] {
      var before, a, d := RunAll(sys, Most(acts)), Last(acts), Deduplicated(sys, Most(acts));
      MergeIsStuttering(sys, st, Most(acts));
      SeenKept(sys, st, Most(acts));
      if Delivers(before, a) && Arriving(before, a).seqno in Seen(sys, Most(acts)) {
        CopyActStutters(before, st, a);
      } else {
        assert Most(d + [a]) == d && Last(d + [a]) == a;
      }
    }
  }
}
