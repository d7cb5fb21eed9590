/** Recovery end to end: a request for a packet the sender still keeps is answered with
    what was pushed, and a packet that arrives in time, first or again, on any path, is
    delivered once it is due, whatever else the network does meanwhile. */
module FlowRecovery {
  import opened Serial
  import opened FlowTypes
  import opened PlayoutBuffer
  import opened ReceiverSpec
  import opened ReceiverProps
  import opened ReceiverFeed
  import opened FlowSystem
  import opened FlowMerge
  import Dlv = ReceiverDelivery
  import Snd = SenderSpec
  import Runs = SenderRuns
  import Answers = SenderAnswers

  // ---- a packet taken is held until it is delivered ----

  predicate Delivered(b: Buffer, s: u32) { exists i :: 0 <= i < |b.events| && b.events[i].seqno == s }

  predicate Secured(c: Core, s: u32) {
    c.started && c.buf.Valid() && (c.buf.Holds(s) || Delivered(c.buf, s))
  }

  lemma {:induction false} PlayedSeqs(hs: seq<Held>, next: u32, pending: bool)
    ensures |Played(hs, next, pending)| == |hs|
    ensures forall i :: 0 <= i < |hs| ==> Played(hs, next, pending)[i].seqno == hs[i].seqno
  {
    if hs != [] { PlayedSeqs(hs[1..], Add(hs[0].seqno, 1), false); }
  }

  lemma DrainSecures(b: Buffer, now: int, s: u32)
    requires b.Valid() && b.Windowed() && (b.Holds(s) || Delivered(b, s))
    ensures var r := Drain(b, now).0; r.Valid() && (r.Holds(s) || Delivered(r, s))
  {
    hide Drain, Queue, DueCount, Played;
    DrainPlaysDuePrefix(b, now);
    var (r, q, m) := (Drain(b, now).0, Queue(b), DueCount(Queue(b), now));
    if Delivered(b, s) {
      var i :| 0 <= i < |b.events| && b.events[i].seqno == s;
      assert r.events[i].seqno == s;
    } else {
      var i := QueueIndex(b, s);
      if i >= m {
        assert q[m..][i - m] == q[i];
        QueueHolds(r, i - m);
      } else {
        PlayedSeqs(q[..m], b.deliverNext, b.pending);
        assert r.events[|b.events| + i].seqno == s;
      }
    }
  }

  lemma DeliverSecures(c: Core, now: int, s: u32)
    requires Valid(c) && c.buf.Windowed() && Secured(c, s)
    ensures Secured(DeliverDue(c, now), s)
  {
    hide Drain;
    DrainSecures(c.buf, now, s);
  }

  /** A packet stored keeps every packet of another sequence: in the window none shares
      its slot. */
  lemma StoredSecures(c: Core, r: Core, now: int, pkt: MediaPacket, at: int, buffer: int, s: u32)
    requires Valid(c) && c.buf.Windowed() && Secured(c, s) && r.started && r.buf.Valid()
    requires !Less(pkt.seqno, c.buf.deliverNext) && Fwd(c.buf.deliverNext, pkt.seqno) < |c.buf.ring|
    requires Stores(c.buf, r.buf, pkt, now, at, buffer)
    ensures Secured(r, s) && r.buf.Holds(pkt.seqno)
  {
    if c.buf.Holds(s) && pkt.seqno % |c.buf.ring| == s % |c.buf.ring| { SlotIsOwn(c.buf, pkt.seqno); }
  }

  /** In time: not past its instant by more than the buffer and a tenth, and not behind
      the cursor. A retransmission does not begin a flow. */
  predicate InTime(c: Core, now: int, pkt: MediaPacket) {
    if c.started then !Expired(c, now, pkt) && !Less(pkt.seqno, c.buf.deliverNext) else !pkt.retransmit
  }

  lemma FeedSecures(c: Core, now: int, path: int, pkt: MediaPacket, s: u32)
    requires Valid(c) && c.buf.Windowed() && InWindow(c, OpFeed(now, path, pkt)) && (c.started ==> pkt.ssrc == c.ssrc)
    ensures Secured(c, s) ==> Secured(FeedCore(c, now, path, pkt), s)
    ensures InTime(c, now, pkt) ==> Secured(FeedCore(c, now, path, pkt), pkt.seqno)
  {
    hide FeedCore, Expired, Stores, QueuesTo, Placed, Prepare, Judge, Track;
    var r := FeedCore(c, now, path, pkt);
    FeedValid(c, now, path, pkt);
    if c.started {
      FeedExact(c, now, path, pkt);
      if Takes(c, now, pkt) {
        TakenInWindow(c, now, path, pkt);
        StoresOwn(c.buf, r.buf, pkt, now, Placed(c, now, pkt).0, c.x.recoveryBuffer);
        if Secured(c, s) { StoredSecures(c, r, now, pkt, Placed(c, now, pkt).0, c.x.recoveryBuffer, s); }
      } else {
        CopiedIs(c.buf, pkt);
      }
    } else {
      FlowBegins(c, now, path, pkt);
    }
  }

  lemma StoresOwn(b: Buffer, r: Buffer, pkt: MediaPacket, now: int, at: int, buffer: int)
    requires b.Valid() && r.Valid() && Stores(b, r, pkt, now, at, buffer)
    ensures r.Holds(pkt.seqno)
  {
  }

  lemma TakenInWindow(c: Core, now: int, path: int, pkt: MediaPacket)
    requires Valid(c) && Continues(c, pkt) && Takes(c, now, pkt) && InWindow(c, OpFeed(now, path, pkt))
    ensures Fwd(c.buf.deliverNext, pkt.seqno) < |c.buf.ring|
  {
    hide Takes, Judge, Placed, ClockFor, Track;
    VerdictIs(c, now, pkt);
    PreparedIs(c, now, pkt);
  }

  lemma StepSecures(c: Core, op: Op, s: u32)
    requires Valid(c) && WakesInTime(c) && InWindow(c, op) && Secured(c, s) && (op.OpFeed? ==> op.pkt.ssrc == c.ssrc)
    ensures Secured(Step(c, op), s)
  {
    hide FeedCore, DeliverDue, InWindow, NtpFromTimestamp, NtpToTimestamp, TruncDiv, Secured, Recovery.Credit;
    match op
    case OpFeed(now, path, pkt) => FeedSecures(c, now, path, pkt, s);
    case OpTimer(now, id, rescaled) =>
      var c1 := c.(playoutArmed := false);
      SameSecured(c, c1, s);
      DeliverSecures(c1, now, s);
      if !id.TimerPlayout? { SameSecured(c, Step(c, op), s); }
    case OpTick(now) =>
      DeliverSecures(c, now, s);
      SameSecured(DeliverDue(c, now), Step(c, op), s);
    case OpFeedback(_, _) => SameSecured(c, Step(c, op), s);
  }

  lemma SameSecured(c: Core, r: Core, s: u32)
    requires Secured(c, s) && r.buf == c.buf && r.started == c.started
    ensures Secured(r, s)
  {
  }

  lemma ActSecures(sys: System, st: Stream, a: Action, s: u32)
    requires Merging(sys, st) && Admissible(sys, st, a) && Secured(sys.rcv, s)
    ensures Secured(Act(sys, a).rcv, s)
  {
    hide Tracks, FeedCore, Step, InWindow, WakesInTime, NtpFromTimestamp, Secured, Snd.FeedFeedback, Snd.Push;
    var op := ReceiverOp(sys, a);
    if op.Some? {
      if a.MediaArrives? { assert GenuineOutput(sys.base, sys.pushed, sys.snd.ssrc, sys.snd.outputs[a.k]); }
      assert sys.rcv.started by { assert Secured(sys.rcv, s); SecuredStarted(sys.rcv, s); }
      StepSecures(sys.rcv, op.value, s);
    }
  }

  lemma SecuredStarted(c: Core, s: u32)
    requires Secured(c, s)
    ensures c.started
  {
  }

  lemma {:induction false} RunSecures(sys: System, st: Stream, acts: seq<Action>, s: u32)
    requires Ok(sys) && Merging(sys, st) && |sys.pushed| + Pushes(acts) <= HALF && RunAdmissible(sys, st, acts)
    requires Secured(sys.rcv, s)
    ensures Merging(RunAll(sys, acts), st) && Secured(RunAll(sys, acts).rcv, s) && sys.pushed <= RunAll(sys, acts).pushed
  {
    hide Act, Kept, Admissible, Merging, Ok, Secured;
    if acts != [] {
      var before, a := RunAll(sys, Most(acts)), Last(acts);
      RunSecures(sys, st, Most(acts), s);
      ActKeeps(before, st, a, 0);
      ActSecures(before, st, a, s);
      GrowsBy(before, st, a);
    }
  }

  lemma GrowsBy(sys: System, st: Stream, a: Action)
    requires Merging(sys, st) && Admissible(sys, st, a)
    ensures sys.pushed <= Act(sys, a).pushed && Act(sys, a).base == sys.base
  {
  }

  /** The actions that deliver what is due. */
  predicate PlaysOut(a: Action, now: int) {
    a == ReceiverTick(now) || (a.ReceiverTimer? && a.now == now && a.id.TimerPlayout?)
  }

  lemma PlaysSecured(sys: System, st: Stream, a: Action, now: int, s: u32)
    requires Merging(sys, st) && PlaysOut(a, now) && Secured(sys.rcv, s)
    requires forall i :: 0 <= i < |Queue(sys.rcv.buf)| ==> Queue(sys.rcv.buf)[i].outputTime <= now
    ensures Delivered(Act(sys, a).rcv.buf, s)
  {
    hide Tracks, WakesInTime, Queue, Step, Delivered, NtpFromTimestamp;
    var op := ReceiverOp(sys, a).value;
    Dlv.PlaysAll(sys.rcv, op, now);
    StepSecures(sys.rcv, op, s);
    var r := Step(sys.rcv, op);
    if r.buf.Holds(s) { var i := QueueIndex(r.buf, s); }
  }

  /** Any copy of a packet the sender emitted, the original or a retransmission, that
      arrives in time is delivered, as it was pushed, by the time everything buffered
      has come due, whatever else is sent, lost, repeated or asked for meanwhile. */
  lemma ArrivalIsDelivered(sys: System, st: Stream, a: Action, acts: seq<Action>, play: Action, now: int)
    requires Merging(sys, st) && Admissible(sys, st, a) && Delivers(sys, a) && InTime(sys.rcv, a.now, Arriving(sys, a))
    requires var s1 := Act(sys, a);
      && Merging(s1, st) && |s1.pushed| + Pushes(acts) <= HALF && RunAdmissible(s1, st, acts) && PlaysOut(play, now)
      && var q := RunAll(s1, acts).rcv.buf; forall i :: 0 <= i < |Queue(q)| ==> Queue(q)[i].outputTime <= now
    ensures var pkt := Arriving(sys, a);
      exists i :: 0 <= i < |Act(RunAll(Act(sys, a), acts), play).rcv.buf.events|
               && Carried(Act(RunAll(Act(sys, a), acts), play).rcv.buf.events[i], pkt)
  {
    hide Act, Admissible, Merging, Ok, InTime, RunAdmissible, RunAll, Queue, NtpFromTimestamp, Carried;
    MergingOk(sys, st);
    var (pkt, s1) := (Arriving(sys, a), Act(sys, a));
    MergingOk(s1, st);
    ArrivalSecures(sys, st, a);
    RunSecures(s1, st, acts, pkt.seqno);
    var s2 := RunAll(s1, acts);
    MergingOk(s2, st);
    PlaysSecured(s2, st, play, now, pkt.seqno);
    var s3 := Act(s2, play);
    PlaysAdmissible(s2, st, play, now);
    ActOk(s2, play);
    GrowsBy(s2, st, play);
    var i :| 0 <= i < |s3.rcv.buf.events| && s3.rcv.buf.events[i].seqno == pkt.seqno;
    EventFacts(s3, i);
    GrowsBy(sys, st, a);
    CarriedIs(sys, a, s3, i);
  }

  /** The event carries what the packet carried. */
  predicate Carried(e: Deliver, pkt: MediaPacket) {
    e.seqno == pkt.seqno && e.sourceTime == pkt.sourceTime && e.payload == pkt.payload && e.frag == pkt.frag
  }

  lemma CarriedIs(sys: System, a: Action, r: System, i: nat)
    requires Ok(sys) && Delivers(sys, a) && sys.pushed <= r.pushed && r.base == sys.base
    requires i < |r.rcv.buf.events| && r.rcv.buf.events[i].seqno == Arriving(sys, a).seqno && CarriesItem(r, i)
    ensures Carried(r.rcv.buf.events[i], Arriving(sys, a))
  {
    assert GenuineOutput(sys.base, sys.pushed, sys.snd.ssrc, sys.snd.outputs[a.k]);
  }

  lemma MergingOk(sys: System, st: Stream)
    requires Merging(sys, st)
    ensures Ok(sys) && WellFormed(sys)
  {
  }

  lemma PlaysAdmissible(sys: System, st: Stream, a: Action, now: int)
    requires Merging(sys, st) && PlaysOut(a, now)
    ensures Admissible(sys, st, a)
  {
  }

  lemma ArrivalSecures(sys: System, st: Stream, a: Action)
    requires Merging(sys, st) && Admissible(sys, st, a) && Delivers(sys, a) && InTime(sys.rcv, a.now, Arriving(sys, a))
    ensures Secured(Act(sys, a).rcv, Arriving(sys, a).seqno)
  {
    hide Tracks, FeedCore, InWindow, NtpFromTimestamp, InTime, Secured;
    assert GenuineOutput(sys.base, sys.pushed, sys.snd.ssrc, sys.snd.outputs[a.k]);
    FeedSecures(sys.rcv, a.now, a.path, Arriving(sys, a), 0);
  }

  // ---- a request for what is kept is answered ----

  /** The call an action makes on the sender. */
  function SenderOp(a: Action): seq<Snd.Op> {
    match a
    case PushApp(now, payload, frag, sourceTime) => [Snd.OpPush(now, payload, frag, None, sourceTime)]
    case SenderFeedback(now, fb) => [Snd.OpFeedback(now, fb)]
    case SenderTimer(now, id) => [Snd.OpTimer(now, id)]
    case _ => []
  }

  function SenderOps(acts: seq<Action>): seq<Snd.Op> {
    if acts == [] then [] else SenderOps(Most(acts)) + SenderOp(Last(acts))
  }

  lemma {:induction false} RunOneMore(s: Snd.SenderState, ops: seq<Snd.Op>, op: Snd.Op)
    requires Snd.WithinBudget(s)
    ensures Snd.Run(s, ops + [op]) == Snd.Step(Snd.Run(s, ops), op)
    decreases |ops|
  {
    hide Snd.Step, Snd.Credit;
    if ops == [] {
      assert [op][1..] == [];
      Snd.StepWithinBudget(s, op);
    } else {
      Snd.StepWithinBudget(s, ops[0]);
      assert (ops + [op])[1..] == ops[1..] + [op];
      RunOneMore(Snd.Step(s, ops[0]), ops[1..], op);
    }
  }

  /** The sender of a system after a run is the sender alone after the calls on it. */
  lemma {:induction false} RunIsSenderRun(sys: System, acts: seq<Action>)
    requires Ok(sys) && |sys.pushed| + Pushes(acts) <= HALF && Snd.WithinBudget(sys.snd)
    ensures RunAll(sys, acts).snd == Snd.Run(sys.snd, SenderOps(acts))
  {
    hide Ok, Snd.WithinBudget, Snd.Push, Snd.FeedFeedback, Snd.HandleTimer, Step, NtpFromTimestamp;
    if acts != [] {
      RunIsSenderRun(sys, Most(acts));
      var op := SenderOp(Last(acts));
      if op == [] {
        assert SenderOps(Most(acts)) + [] == SenderOps(Most(acts));
      } else {
        RunOneMore(sys.snd, SenderOps(Most(acts)), op[0]);
      }
    }
  }

  lemma {:induction false} RepliesHave(h: seq<Runs.Event>, n: nat, missing: seq<u32>, fs: seq<Snd.Gate>, path: int, ssrc: u32, i: nat)
      returns (k: nat)
    requires n > 0 && |fs| <= |missing| && i < |fs| && fs[i].Resend?
    requires forall j :: 0 <= j < |fs| && fs[j].Resend? ==> Answers.Retained(h, n, missing[j])
    ensures k < |Answers.Replies(h, n, missing, fs, path, ssrc)|
    ensures Answers.Replies(h, n, missing, fs, path, ssrc)[k] == Answers.Reply(h, n, missing[i], path, ssrc)
    decreases |fs|
  {
    hide Answers.Retained, Answers.Reply;
    if i == 0 {
      k := 0;
    } else {
      k := RepliesHave(h, n, missing[1..], fs[1..], path, ssrc, i - 1);
      if fs[0].Resend? { k := k + 1; }
    }
  }

  /** After any run, a request that names no packet twice and reaches the sender: every
      packet in it that is still kept, was not re-sent too recently, has retries left and
      meets an open gate is emitted again with what was pushed, until the budget of one
      request is spent. */
  lemma RequestIsAnswered(cfg: Config, est: Estimator, recoveryBuffer: int, ringSize: int, ssrc: u32, base: u32,
                          acts: seq<Action>, now: int, peer: u32, missing: seq<u32>, i: nat) returns (k: nat)
    requires RingSize(ringSize) && cfg.nackSeqsPerSec >= 0.0 && cfg.nackTokenBurst >= 0.0 && Pushes(acts) <= HALF
    requires forall j, m :: 0 <= j < m < |missing| ==> missing[j] != missing[m]
    requires var sys := NewSystem(cfg, est, recoveryBuffer, ringSize, ssrc, base);
      && Ok(sys) && Snd.WithinBudget(sys.snd)
      && var (h, t) := (Runs.Trace(sys.snd, SenderOps(acts)), Answers.TermsAt(RunAll(sys, acts).snd, now));
         && t.n > 0 && i < |Answers.Answer(h, t, missing, Max(cfg.maxNacksPerLoop, 1))| && i < |missing|
         && Answers.Retained(h, t.n, missing[i]) && !Answers.TooSoon(h, missing[i], t) && !t.shut
         && Runs.Resends(h, missing[i]) < cfg.maxRetries
    ensures var sys := NewSystem(cfg, est, recoveryBuffer, ringSize, ssrc, base);
      var before := RunAll(sys, acts);
      var after := Act(before, SenderFeedback(now, NackRequest(peer, missing)));
      && |before.snd.outputs| <= k < |after.snd.outputs| && after.snd.outputs[k].SendMedia?
      && var pkt := after.snd.outputs[k].pkt;
         && pkt.retransmit && pkt.seqno == missing[i] && Fwd(base, missing[i]) < |before.pushed|
         && before.pushed[Fwd(base, missing[i])] == Item(pkt.sourceTime, pkt.payload, pkt.frag)
  {
    hide Answers.Answer, Answers.Replies, Answers.Retained, Answers.TooSoon, Answers.TermsAt, Answers.Counts, Snd.FeedFeedback,
         Runs.Trace, Runs.Resends, Snd.WithinBudget, RunAll, Snd.Run, NewSystem, SenderOps, Ok;
    var sys := NewSystem(cfg, est, recoveryBuffer, ringSize, ssrc, base);
    NewSystemSender(cfg, est, recoveryBuffer, ringSize, ssrc, base);
    var before := RunAll(sys, acts);
    RunIsSenderRun(sys, acts);
    TermsCfg(before.snd, now);
    var (h, t) := (Runs.Trace(sys.snd, SenderOps(acts)), Answers.TermsAt(before.snd, now));
    Answers.RequestAnswered(cfg, est, ringSize, ssrc, base, SenderOps(acts), now, peer, missing);
    Answers.AnswerDistinct(h, t, missing, Max(cfg.maxNacksPerLoop, 1), i);
    Answers.AnswerRetained(h, t, missing, Max(cfg.maxNacksPerLoop, 1));
    var fs := Answers.Answer(h, t, missing, Max(cfg.maxNacksPerLoop, 1));
    var j := RepliesHave(h, t.n, missing, fs, before.snd.txPath, before.snd.ssrc, i);
    k := |before.snd.outputs| + j;
    ReplyGenuine(before, now, peer, missing, k);
  }

  lemma NewSystemSender(cfg: Config, est: Estimator, recoveryBuffer: int, ringSize: int, ssrc: u32, base: u32)
    requires RingSize(ringSize)
    ensures NewSystem(cfg, est, recoveryBuffer, ringSize, ssrc, base).snd == Snd.NewSender(cfg, est, ringSize, ssrc, base)
    ensures NewSystem(cfg, est, recoveryBuffer, ringSize, ssrc, base).base == base
    ensures NewSystem(cfg, est, recoveryBuffer, ringSize, ssrc, base).pushed == []
    ensures Snd.NewSender(cfg, est, ringSize, ssrc, base).cfg == cfg
  {
  }

  lemma TermsCfg(s: Snd.SenderState, now: int)
    ensures Answers.TermsAt(s, now).cfg == s.cfg
  {
  }

  lemma ReplyGenuine(sys: System, now: int, peer: u32, missing: seq<u32>, k: nat)
    requires Ok(sys)
    requires var r := Snd.FeedFeedback(sys.snd, now, NackRequest(peer, missing)); k < |r.outputs| && r.outputs[k].SendMedia?
    ensures var pkt := Snd.FeedFeedback(sys.snd, now, NackRequest(peer, missing)).outputs[k].pkt;
      && Fwd(sys.base, pkt.seqno) < |sys.pushed|
      && sys.pushed[Fwd(sys.base, pkt.seqno)] == Item(pkt.sourceTime, pkt.payload, pkt.frag)
  {
    hide Snd.FeedFeedback, ReceiverOk;
    FeedbackGenuine(sys.snd, sys.base, sys.pushed, now, NackRequest(peer, missing));
    var r := Snd.FeedFeedback(sys.snd, now, NackRequest(peer, missing));
    assert GenuineOutput(sys.base, sys.pushed, r.ssrc, r.outputs[k]);
  }
}
