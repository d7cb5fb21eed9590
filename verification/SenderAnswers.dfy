/** What the sender does for its callers, told from what was pushed, asked and sent and
    not from its tests: every push leaves once, every request is answered exactly as
    the events so far demand, and the bandwidth gate reads exactly what was sent
    (internal/flow/sender.go). */
module SenderAnswers {
  import opened Serial
  import opened FlowTypes
  import opened Bitrate
  import opened SenderSpec
  import opened SenderRuns

  // ---- requests ----

  /** What an answer depends on besides the events: the ring size, the configuration,
      the spacing asked for, whether the bandwidth gate is shut, and the instant. */
  datatype Terms = Terms(n: nat, cfg: Config, spacing: int, shut: bool, now: int)

  /** q was kept, and nothing kept since has taken its slot. */
  predicate Retained(h: seq<Event>, n: nat, q: u32)
    requires n > 0
  {
    Occupant(h, q % n, n).Some? && Occupant(h, q % n, n).value.seqno == q
  }

  predicate TooSoon(h: seq<Event>, q: u32, t: Terms) {
    LastResend(h, q).Some? && t.now - LastResend(h, q).value < t.spacing
  }

  /** What becomes of a request for q. The tests are in the order in which a request that
      fails several is counted. */
  function Fate(h: seq<Event>, t: Terms, q: u32): Gate
    requires t.n > 0
  {
    if !Retained(h, t.n, q) then Skipped
    else if TooSoon(h, q, t) then Suppressed
    else if t.shut then OverBandwidth
    else if Resends(h, q) >= t.cfg.maxRetries then Exhausted
    else Resend
  }

  /** The fates of the sequences of a request, until `budget` of them have been re-sent. */
  function Answer(h: seq<Event>, t: Terms, missing: seq<u32>, budget: nat): seq<Gate>
    requires t.n > 0
    decreases |missing|
  {
    if missing == [] || budget == 0 then []
    else if Fate(h, t, missing[0]).Resend? then
      [Resend] + Answer(h + [Resent(missing[0], t.now, t.spacing)], t, missing[1..], budget - 1)
    else [Fate(h, t, missing[0])] + Answer(h, t, missing[1..], budget)
  }

  function Tally(fs: seq<Gate>, g: Gate): nat
    decreases |fs|
  {
    if fs == [] then 0 else (if fs[0] == g then 1 else 0) + Tally(fs[1..], g)
  }

  lemma TallyCons(g: Gate, fs: seq<Gate>, x: Gate)
    ensures Tally([g] + fs, x) == (if g == x then 1 else 0) + Tally(fs, x)
    ensures Tally([g], x) == if g == x then 1 else 0
  {
    assert ([g] + fs)[1..] == fs && [g][1..] == [];
  }

  /** The packet kept, marked as a retransmission. */
  function Reply(h: seq<Event>, n: nat, q: u32, path: int, ssrc: u32): Output
    requires n > 0 && Retained(h, n, q)
  {
    var e := Occupant(h, q % n, n).value;
    SendMedia(path, MediaPacket(q, e.sourceTime, ssrc, e.payload, true, e.frag, 0, 0, false))
  }

  /** The replies to the sequences whose fate is to be re-sent. */
  function Replies(h: seq<Event>, n: nat, missing: seq<u32>, fs: seq<Gate>, path: int, ssrc: u32): seq<Output>
    requires n > 0 && |fs| <= |missing|
    requires forall i :: 0 <= i < |fs| && fs[i].Resend? ==> Retained(h, n, missing[i])
    decreases |fs|
  {
    if fs == [] then [] else
    (if fs[0].Resend? then [Reply(h, n, missing[0], path, ssrc)] else []) +
    Replies(h, n, missing[1..], fs[1..], path, ssrc)
  }

  /** A re-send takes no slot. */
  lemma ResentKeepsOccupants(h: seq<Event>, e: Event, i: nat, n: nat)
    requires n > 0 && e.Resent?
    ensures Occupant(h + [e], i, n) == Occupant(h, i, n)
  {
    AppendLast(h, e);
  }

  lemma {:induction false} AnswerRetained(h: seq<Event>, t: Terms, missing: seq<u32>, budget: nat)
    requires t.n > 0
    ensures var fs := Answer(h, t, missing, budget);
      |fs| <= |missing| && forall i :: 0 <= i < |fs| && fs[i].Resend? ==> Retained(h, t.n, missing[i])
    decreases |missing|
  {
    hide Occupant;
    if missing != [] && budget > 0 {
      var q := missing[0];
      var (resend, e) := (Fate(h, t, q).Resend?, Resent(q, t.now, t.spacing));
      var h' := if resend then h + [e] else h;
      var rest := Answer(h', t, missing[1..], if resend then budget - 1 else budget);
      AnswerRetained(h', t, missing[1..], if resend then budget - 1 else budget);
      forall i | 0 <= i < |rest| && rest[i].Resend? ensures Retained(h, t.n, missing[i + 1]) {
        assert Retained(h', t.n, missing[1..][i]);
        ResentKeepsOccupants(h, e, missing[i + 1] % t.n, t.n);
      }
    }
  }

  lemma {:induction false} RepliesSame(h: seq<Event>, h': seq<Event>, n: nat, missing: seq<u32>, fs: seq<Gate>, path: int, ssrc: u32)
    requires n > 0 && |fs| <= |missing| && forall i :: 0 <= i < n ==> Occupant(h', i, n) == Occupant(h, i, n)
    requires forall i :: 0 <= i < |fs| && fs[i].Resend? ==> Retained(h, n, missing[i])
    ensures forall i :: 0 <= i < |fs| && fs[i].Resend? ==> Retained(h', n, missing[i])
    ensures Replies(h', n, missing, fs, path, ssrc) == Replies(h, n, missing, fs, path, ssrc)
    decreases |fs|
  {
    hide Occupant;
    if fs != [] { RepliesSame(h, h', n, missing[1..], fs[1..], path, ssrc); }
  }

  // ---- one pass ----

  /** The sender's tests read off the events, at one instant. */
  predicate Agrees(s: SenderState, h: seq<Event>, t: Terms) {
    && Logged(s, h) && t.n == |s.ring| > 0 && t.cfg == s.cfg && t.spacing == Spacing(s)
    && Refreshed(s.retryBW, t.now)
    && t.shut == OverBudget(s.cfg.congestion, s.dataBW, s.retryBW, s.cfg.recoveryMaxBitrate)
  }

  lemma JudgeIsFate(s: SenderState, h: seq<Event>, t: Terms, q: u32)
    requires Agrees(s, h, t)
    ensures Judge(s, t.now, q) == Fate(h, t, q)
    ensures Fate(h, t, q).Resend? ==>
      var sl := s.ring[q % t.n];
      sl.Sent? && sl.seqno == q && Reply(h, t.n, q, s.txPath, s.ssrc) == Packet(s, q, sl.sourceTime, sl.payload, sl.frag, true)
  {
    hide OverBudget, Spacing, LastResend, Resends, Occupant;
    assert s.ring[q % t.n] == SlotBy(h, q % t.n, t.n);
  }

  /** From s to r the fates were counted, and nothing else about the sender changed but
      its ring, its outputs and its retry average. */
  predicate Counts(s: SenderState, r: SenderState, fs: seq<Gate>) {
    && r.retransmitted == s.retransmitted + Tally(fs, Resend)
    && r.skipped == s.skipped + Tally(fs, Skipped)
    && r.suppressed == s.suppressed + Tally(fs, Suppressed)
    && r.bandwidthSkipped == s.bandwidthSkipped + Tally(fs, OverBandwidth)
    && r.exhausted == s.exhausted + Tally(fs, Exhausted)
    && r.sent == s.sent && r.nextSeq == s.nextSeq && r.dataBW == s.dataBW && r.est == s.est && r.started == s.started
  }

  lemma ServiceAgrees(s: SenderState, h: seq<Event>, t: Terms, q: u32)
    requires Agrees(s, h, t) && Paced(h, s.cfg.maxRetries)
    ensures var (r, g) := (Service(s, t.now, q), Fate(h, t, q));
      var h' := if g.Resend? then h + [Resent(q, t.now, t.spacing)] else h;
      && Agrees(r, h', t) && Paced(h', s.cfg.maxRetries)
      && Counts(s, r, [g]) && r.cfg == s.cfg && r.txPath == s.txPath && r.ssrc == s.ssrc && |r.ring| == |s.ring|
      && r.outputs == s.outputs + (if g.Resend? then [Reply(h, t.n, q, s.txPath, s.ssrc)] else [])
  {
    hide Logged, Fate, Paced, Ewma.Feed, Refreshed, Reply, Tally;
    JudgeIsFate(s, h, t, q);
    forall x { TallyCons(Fate(h, t, q), [], x); }
    if Judge(s, t.now, q).Resend? {
      ResendLogged(s, h, t.now, q);
      var bytes := WireBytes(|s.ring[q % |s.ring|].payload|);
      RefreshedOnce(s.retryBW, t.now, bytes);
    } else {
      RefusalLogged(s, h, t.now, q);
    }
  }

  lemma CountsChain(a: SenderState, b: SenderState, c: SenderState, g: Gate, fs: seq<Gate>)
    requires Counts(a, b, [g]) && Counts(b, c, fs)
    ensures Counts(a, c, [g] + fs)
  {
    hide Tally;
    forall x { TallyCons(g, fs, x); }
  }

  /** The sender's outputs and counters are those of the answer to a request. */
  predicate Answered(s: SenderState, r: SenderState, h: seq<Event>, t: Terms, missing: seq<u32>, budget: nat)
    requires t.n > 0
  {
    var fs := Answer(h, t, missing, budget);
    AnswerRetained(h, t, missing, budget);
    Counts(s, r, fs) && r.outputs == s.outputs + Replies(h, t.n, missing, fs, s.txPath, s.ssrc)
  }

  lemma NothingAnswered(s: SenderState, h: seq<Event>, t: Terms, missing: seq<u32>, budget: nat)
    requires t.n > 0 && (missing == [] || budget == 0)
    ensures Answered(s, s, h, t, missing, budget)
  {
  }

  lemma RefusalAnswered(s: SenderState, s': SenderState, r: SenderState, h: seq<Event>, t: Terms, q: u32, rest: seq<u32>, budget: nat)
    requires t.n > 0 && budget > 0 && !Fate(h, t, q).Resend? && Answered(s', r, h, t, rest, budget)
    requires Counts(s, s', [Fate(h, t, q)]) && s'.outputs == s.outputs && s'.txPath == s.txPath && s'.ssrc == s.ssrc
    ensures Answered(s, r, h, t, [q] + rest, budget)
  {
    hide Counts, Fate, Retained, Reply;
    var fs := Answer(h, t, rest, budget);
    assert ([q] + rest)[1..] == rest;
    AnswerRetained(h, t, [q] + rest, budget);
    AnswerRetained(h, t, rest, budget);
    CountsChain(s, s', r, Fate(h, t, q), fs);
    assert ([Fate(h, t, q)] + fs)[1..] == fs;
  }

  lemma ResendAnswered(s: SenderState, s': SenderState, r: SenderState, h: seq<Event>, t: Terms, q: u32, rest: seq<u32>, budget: nat)
    requires t.n > 0 && budget > 0 && Fate(h, t, q).Resend?
    requires Answered(s', r, h + [Resent(q, t.now, t.spacing)], t, rest, budget - 1)
    requires Counts(s, s', [Resend]) && s'.outputs == s.outputs + [Reply(h, t.n, q, s.txPath, s.ssrc)]
    requires s'.txPath == s.txPath && s'.ssrc == s.ssrc
    ensures Answered(s, r, h, t, [q] + rest, budget)
  {
    hide Counts, Reply, Occupant;
    var h' := h + [Resent(q, t.now, t.spacing)];
    var fs := Answer(h', t, rest, budget - 1);
    assert ([q] + rest)[1..] == rest;
    AnswerRetained(h, t, [q] + rest, budget);
    AnswerRetained(h', t, rest, budget - 1);
    CountsChain(s, s', r, Resend, fs);
    assert ([Resend] + fs)[1..] == fs;
    forall k | 0 <= k < t.n ensures Occupant(h, k, t.n) == Occupant(h', k, t.n) {
      ResentKeepsOccupants(h, Resent(q, t.now, t.spacing), k, t.n);
    }
    RepliesSame(h', h, t.n, rest, fs, s.txPath, s.ssrc);
  }

  lemma {:induction false} PassAnswers(s: SenderState, h: seq<Event>, t: Terms, missing: seq<u32>, i: nat, emitted: nat, budget: nat)
    requires t.n > 0 && |s.ring| > 0 && Agrees(s, h, t) && Paced(h, s.cfg.maxRetries) && i <= |missing|
    requires budget >= 1 && emitted + budget == Max(s.cfg.maxNacksPerLoop, emitted + 1)
    ensures Answered(s, ServiceFrom(s, t.now, missing, i, emitted), h, t, missing[i..], budget)
    decreases |missing| - i
  {
    hide Agrees, Fate, Paced, Service, Judge, Counts, Reply, Retained, Answered;
    if i == |missing| {
      NothingAnswered(s, h, t, missing[i..], budget);
    } else {
      var (q, rest, s') := (missing[i], missing[i + 1..], Service(s, t.now, missing[i]));
      assert missing[i..] == [q] + rest;
      ServiceAgrees(s, h, t, q);
      AgreesGate(s, h, t, q);
      var r := ServiceFrom(s, t.now, missing, i, emitted);
      if !Fate(h, t, q).Resend? {
        PassAnswers(s', h, t, missing, i + 1, emitted, budget);
        RefusalAnswered(s, s', r, h, t, q, rest, budget);
      } else {
        var h' := h + [Resent(q, t.now, t.spacing)];
        if emitted + 1 < s.cfg.maxNacksPerLoop {
          PassAnswers(s', h', t, missing, i + 1, emitted + 1, budget - 1);
        } else {
          NothingAnswered(s', h', t, rest, budget - 1);
        }
        ResendAnswered(s, s', r, h, t, q, rest, budget);
      }
    }
  }

  lemma CountsNothing(s: SenderState)
    ensures Counts(s, s, [])
  {
  }

  lemma AgreesGate(s: SenderState, h: seq<Event>, t: Terms, q: u32)
    requires Agrees(s, h, t)
    ensures |s.ring| > 0 && t.n > 0 && Judge(s, t.now, q) == Fate(h, t, q)
  {
    hide Judge, Fate;
    JudgeIsFate(s, h, t, q);
  }

  // ---- whole runs ----

  /** The terms on which a sender answers at an instant: one clamped round trip between
      re-sends, two under aggressive congestion control. */
  function TermsAt(s: SenderState, now: int): Terms {
    var rtt := s.est.LastClamped(s.cfg);
    Terms(|s.ring|, s.cfg, if s.cfg.congestion.CongestionAggressive? then rtt + rtt else rtt,
          OverBudget(s.cfg.congestion, s.dataBW.Feed(now, 0), s.retryBW.Feed(now, 0), s.cfg.recoveryMaxBitrate), now)
  }

  /** After any run of a new sender, a request is answered as the events so far demand:
      each sequence named is skipped, held back or re-sent by what was kept and re-sent
      before, each re-send carries exactly what was kept, and each fate is counted. */
  lemma RequestAnswered(cfg: Config, est: Estimator, ringSize: int, ssrc: u32, startSeq: u32, ops: seq<Op>,
                        now: int, peer: u32, missing: seq<u32>)
    requires RingSize(ringSize)
    ensures var s0 := NewSender(cfg, est, ringSize, ssrc, startSeq);
      && WithinBudget(s0)
      && var s := Run(s0, ops);
         && TermsAt(s, now).n == ringSize
         && Answered(s.(dataBW := s.dataBW.Feed(now, 0)), FeedFeedback(s, now, NackRequest(peer, missing)),
                     Trace(s0, ops), TermsAt(s, now), missing, Max(cfg.maxNacksPerLoop, 1))
  {
    var s0 := NewSender(cfg, est, ringSize, ssrc, startSeq);
    CreditOfVacant(s0.ring, cfg.maxRetries);
    RunLogged(s0, [], ops);
    assert [] + Trace(s0, ops) == Trace(s0, ops);
    RingLasts(s0, ops);
    NackAnswered(Run(s0, ops), Trace(s0, ops), now, peer, missing);
  }

  lemma NackAnswered(s: SenderState, h: seq<Event>, now: int, peer: u32, missing: seq<u32>)
    requires Logged(s, h) && Paced(h, s.cfg.maxRetries)
    ensures Answered(s.(dataBW := s.dataBW.Feed(now, 0)), FeedFeedback(s, now, NackRequest(peer, missing)),
                     h, TermsAt(s, now), missing, Max(s.cfg.maxNacksPerLoop, 1))
  {
    hide Logged, Paced, ServiceFrom, Answer, Replies, Retained;
    var s1 := s.(dataBW := s.dataBW.Feed(now, 0), retryBW := s.retryBW.Feed(now, 0));
    RefreshedOnce(s.retryBW, now, 0);
    LoggedShape(s, h);
    LoggedSame(s, s1, h);
    assert Agrees(s1, h, TermsAt(s, now));
    assert missing[0..] == missing;
    PassAnswers(s1, h, TermsAt(s, now), missing, 0, 0, Max(s.cfg.maxNacksPerLoop, 1));
  }

  lemma LoggedShape(s: SenderState, h: seq<Event>)
    requires Logged(s, h)
    ensures |s.ring| > 0
  {
  }

  lemma LoggedSame(s: SenderState, r: SenderState, h: seq<Event>)
    requires Logged(s, h) && r.ring == s.ring
    ensures Logged(r, h)
  {
    hide SlotBy;
  }

  lemma {:induction false} RingLasts(s: SenderState, ops: seq<Op>)
    requires WithinBudget(s)
    ensures |Run(s, ops).ring| == |s.ring|
    decreases |ops|
  {
    hide Step, Credit;
    if ops != [] {
      StepWithinBudget(s, ops[0]);
      StepKeepsRing(s, ops[0]);
      RingLasts(Step(s, ops[0]), ops[1..]);
    }
  }

  lemma StepKeepsRing(s: SenderState, op: Op)
    requires RingSize(|s.ring|)
    ensures |Step(s, op).ring| == |s.ring|
  {
    hide NtpFromTimestamp, NtpToTimestamp, TruncDiv, ServiceFrom;
    if IsNack(op) {
      ServedRing(s.(dataBW := s.dataBW.Feed(op.now, 0), retryBW := s.retryBW.Feed(op.now, 0)), op.now, op.fb.missing, 0, 0);
    }
  }

  lemma {:induction false} ServedRing(s: SenderState, now: int, missing: seq<u32>, i: nat, emitted: nat)
    requires |s.ring| > 0 && i <= |missing|
    ensures |ServiceFrom(s, now, missing, i, emitted).ring| == |s.ring|
    decreases |missing| - i
  {
    hide Judge;
    if i < |missing| {
      var s' := Service(s, now, missing[i]);
      ServiceKeeps(s, now, missing[i]);
      if !Judge(s, now, missing[i]).Resend? {
        ServedRing(s', now, missing, i + 1, emitted);
      } else if emitted + 1 < s.cfg.maxNacksPerLoop {
        ServedRing(s', now, missing, i + 1, emitted + 1);
      }
    }
  }

  // ---- what an answer is, sequence by sequence ----

  /** The re-sends among the first fates of a request. */
  function ResentBy(t: Terms, missing: seq<u32>, fs: seq<Gate>): seq<Event>
    requires |fs| <= |missing|
    decreases |fs|
  {
    if fs == [] then [] else
    (if fs[0].Resend? then [Resent(missing[0], t.now, t.spacing)] else []) + ResentBy(t, missing[1..], fs[1..])
  }

  /** Each sequence named has the fate that the events before it demand, the re-sends of
      this very request among them; and the request is cut short only once the budget
      has been re-sent. */
  lemma {:induction false} AnswerIs(h: seq<Event>, t: Terms, missing: seq<u32>, budget: nat, i: nat)
    requires t.n > 0 && i < |Answer(h, t, missing, budget)|
    ensures var fs := Answer(h, t, missing, budget);
      |fs| <= |missing| && fs[i] == Fate(h + ResentBy(t, missing, fs[..i]), t, missing[i])
    decreases |missing|
  {
    hide Fate;
    var (fs, g) := (Answer(h, t, missing, budget), Fate(h, t, missing[0]));
    AnswerRetained(h, t, missing, budget);
    if i == 0 {
      assert h + [] == h;
    } else {
      var e := if g.Resend? then [Resent(missing[0], t.now, t.spacing)] else [];
      var (h', rest, left) := (h + e, missing[1..], if g.Resend? then budget - 1 else budget);
      assert h + [] == h;
      assert fs[1..] == Answer(h', t, rest, left);
      AnswerIs(h', t, rest, left, i - 1);
      assert fs[..i][1..] == fs[1..][..i - 1] && fs[..i][0] == fs[0];
      assert h' + ResentBy(t, rest, fs[1..][..i - 1]) == h + ResentBy(t, missing, fs[..i]);
    }
  }

  lemma {:induction false} AnswerStops(h: seq<Event>, t: Terms, missing: seq<u32>, budget: nat)
    requires t.n > 0
    ensures var fs := Answer(h, t, missing, budget);
      Tally(fs, Resend) <= budget && (|fs| < |missing| ==> Tally(fs, Resend) == budget)
    decreases |missing|
  {
    hide Fate;
    if missing != [] && budget > 0 {
      var (g, e) := (Fate(h, t, missing[0]), Resent(missing[0], t.now, t.spacing));
      var rest := if g.Resend? then Answer(h + [e], t, missing[1..], budget - 1) else Answer(h, t, missing[1..], budget);
      TallyCons(g, rest, Resend);
      if g.Resend? { AnswerStops(h + [e], t, missing[1..], budget - 1); } else { AnswerStops(h, t, missing[1..], budget); }
    }
  }

  /** Re-sending one packet is nothing to another. */
  lemma FateOfOther(h: seq<Event>, e: Event, t: Terms, q: u32)
    requires t.n > 0 && e.Resent? && e.seqno != q
    ensures Fate(h + [e], t, q) == Fate(h, t, q)
  {
    AppendLast(h, e);
    ResentKeepsOccupants(h, e, q % t.n, t.n);
  }

  /** A request that names no sequence twice: every one of them has the fate demanded
      by the events before the request. */
  lemma {:induction false} AnswerDistinct(h: seq<Event>, t: Terms, missing: seq<u32>, budget: nat, i: nat)
    requires t.n > 0 && i < |Answer(h, t, missing, budget)|
    requires forall j, k :: 0 <= j < k < |missing| ==> missing[j] != missing[k]
    ensures i < |missing| && Answer(h, t, missing, budget)[i] == Fate(h, t, missing[i])
    decreases |missing|
  {
    hide Fate;
    AnswerRetained(h, t, missing, budget);
    if i > 0 {
      var (g, e) := (Fate(h, t, missing[0]), Resent(missing[0], t.now, t.spacing));
      if g.Resend? {
        AnswerDistinct(h + [e], t, missing[1..], budget - 1, i - 1);
        FateOfOther(h, e, t, missing[i]);
      } else {
        AnswerDistinct(h, t, missing[1..], budget, i - 1);
      }
    }
  }

  /** A request for one packet: it is re-sent, exactly as it was pushed, if and only if it
      is still retained, was not re-sent too recently, the gate is open and it has
      retries left. */
  lemma OneRequest(s: SenderState, h: seq<Event>, now: int, peer: u32, q: u32)
    requires Logged(s, h) && Paced(h, s.cfg.maxRetries)
    ensures var (t, r) := (TermsAt(s, now), FeedFeedback(s, now, NackRequest(peer, [q])));
      && t.n > 0
      && r.outputs == s.outputs +
           (if Retained(h, t.n, q) && !TooSoon(h, q, t) && !t.shut && Resends(h, q) < s.cfg.maxRetries
            then [Reply(h, t.n, q, s.txPath, s.ssrc)] else [])
  {
    hide Logged, Paced, FeedFeedback, Retained, TooSoon, Reply, Answer, Replies, Counts;
    var (t, budget) := (TermsAt(s, now), Max(s.cfg.maxNacksPerLoop, 1));
    LoggedShape(s, h);
    NackAnswered(s, h, now, peer, [q]);
    OneAnswer(h, t, q, budget, s.txPath, s.ssrc);
  }

  lemma OneAnswer(h: seq<Event>, t: Terms, q: u32, budget: nat, path: int, ssrc: u32)
    requires t.n > 0 && budget > 0
    ensures var (fs, g) := (Answer(h, t, [q], budget), Fate(h, t, q));
      && fs == [g] && (g.Resend? ==> Retained(h, t.n, q))
      && Replies(h, t.n, [q], fs, path, ssrc) == if g.Resend? then [Reply(h, t.n, q, path, ssrc)] else []
  {
    hide Retained, TooSoon, Reply;
    var g := Fate(h, t, q);
    assert [q][1..] == [];
    assert Answer(h + [Resent(q, t.now, t.spacing)], t, [], budget - 1) == [] && Answer(h, t, [], budget) == [];
    assert Answer(h, t, [q], budget) == [g] && [g][1..] == [];
    assert Replies(h, t.n, [q][1..], [g][1..], path, ssrc) == [];
  }

  // ---- pushes ----

  /** What the pushes of a run hand in, each with its sequence: the one given, or one
      more than the push before it had. */
  function Pushed(next: u32, ops: seq<Op>): seq<Event>
    decreases |ops|
  {
    if ops == [] then []
    else if !ops[0].OpPush? then Pushed(next, ops[1..])
    else
      var n := if ops[0].seqno.Some? then ops[0].seqno.value else next;
      var t := if ops[0].sourceTime.Some? then ops[0].sourceTime.value else NtpFromTimestamp(ops[0].now);
      [Kept(n, t, ops[0].payload, ops[0].frag)] + Pushed(Add(n, 1), ops[1..])
  }

  /** The originals among some outputs. */
  function Originals(outs: seq<Output>): seq<Output> {
    if outs == [] then []
    else Originals(Most(outs)) + (if Last(outs).SendMedia? && !Last(outs).pkt.retransmit then [Last(outs)] else [])
  }

  /** A push as it leaves. */
  function Original(e: Event, path: int, ssrc: u32): Output
    requires e.Kept?
  {
    SendMedia(path, MediaPacket(e.seqno, e.sourceTime, ssrc, e.payload, false, e.frag, 0, 0, false))
  }

  function AllOriginal(es: seq<Event>, path: int, ssrc: u32): seq<Output>
    requires forall i :: 0 <= i < |es| ==> es[i].Kept?
  {
    seq(|es|, i requires 0 <= i < |es| => Original(es[i], path, ssrc))
  }

  lemma {:induction false} PushedKept(next: u32, ops: seq<Op>)
    ensures forall i :: 0 <= i < |Pushed(next, ops)| ==> Pushed(next, ops)[i].Kept?
    decreases |ops|
  {
    hide NtpFromTimestamp;
    if ops != [] {
      PushedKept(next, ops[1..]);
      if ops[0].OpPush? {
        var n := if ops[0].seqno.Some? then ops[0].seqno.value else next;
        PushedKept(Add(n, 1), ops[1..]);
      }
    }
  }

  lemma {:induction false} OriginalsConcat(a: seq<Output>, b: seq<Output>)
    ensures Originals(a + b) == Originals(a) + Originals(b)
    decreases |b|
  {
    if b == [] {
      assert a + b == a;
    } else {
      OriginalsConcat(a, Most(b));
      assert Most(a + b) == a + Most(b) && Last(a + b) == Last(b);
    }
  }

  lemma {:induction false} NoOriginals(outs: seq<Output>)
    requires forall i :: 0 <= i < |outs| ==> !(outs[i].SendMedia? && !outs[i].pkt.retransmit)
    ensures Originals(outs) == []
  {
    if outs != [] { NoOriginals(Most(outs)); }
  }

  /** What one call adds to the originals, and where it leaves the sequence counter. */
  lemma StepOriginals(s: SenderState, op: Op)
    requires RingSize(|s.ring|)
    ensures var (r, es) := (Step(s, op), Pushed(s.nextSeq, [op]));
      && |es| <= 1 && (es != [] ==> es[0].Kept?)
      && r.txPath == s.txPath && r.ssrc == s.ssrc && RingSize(|r.ring|)
      && Originals(r.outputs) == Originals(s.outputs) + (if es == [] then [] else [Original(es[0], s.txPath, s.ssrc)])
      && r.nextSeq == (if es == [] then s.nextSeq else Add(es[0].seqno, 1))
  {
    hide NtpFromTimestamp, NtpToTimestamp, TruncDiv, ServiceFrom, Originals;
    assert [op][1..] == [];
    StepKeepsRing(s, op);
    var r := Step(s, op);
    if op.OpPush? {
      PushOriginals(s, op);
    } else if IsNack(op) {
      var s1 := s.(dataBW := s.dataBW.Feed(op.now, 0), retryBW := s.retryBW.Feed(op.now, 0));
      ServedOriginals(s1, op.now, op.fb.missing, 0, 0);
    } else {
      var said := r.outputs[|s.outputs|..];
      assert r.outputs == s.outputs + said;
      OriginalsConcat(s.outputs, said);
      NoOriginals(said);
    }
  }

  lemma PushOriginals(s: SenderState, op: Op)
    requires RingSize(|s.ring|) && op.OpPush?
    ensures var e := Pushed(s.nextSeq, [op])[0];
      e.Kept? && Originals(Step(s, op).outputs) == Originals(s.outputs) + [Original(e, s.txPath, s.ssrc)]
  {
    hide NtpFromTimestamp, Originals;
    assert [op][1..] == [];
    var out := Step(s, op).outputs;
    var timer := if s.started || s.cfg.noRecovery then [] else [SetTimer(TimerRttEcho, op.now + RTT_ECHO_INTERVAL)];
    var pkt := Original(Pushed(s.nextSeq, [op])[0], s.txPath, s.ssrc);
    assert out == s.outputs + (timer + [pkt]);
    OriginalsConcat(s.outputs, timer + [pkt]);
    OriginalsConcat(timer, [pkt]);
    NoOriginals(timer);
    OneOriginal(pkt);
  }

  lemma OneOriginal(o: Output)
    requires o.SendMedia? && !o.pkt.retransmit
    ensures Originals([o]) == [o]
  {
    assert Most([o]) == [];
  }

  lemma {:induction false} ServedOriginals(s: SenderState, now: int, missing: seq<u32>, i: nat, emitted: nat)
    requires |s.ring| > 0 && i <= |missing|
    ensures var r := ServiceFrom(s, now, missing, i, emitted);
      && Originals(r.outputs) == Originals(s.outputs)
      && r.nextSeq == s.nextSeq && r.txPath == s.txPath && r.ssrc == s.ssrc
    decreases |missing| - i
  {
    hide Judge, Originals;
    if i < |missing| {
      var s' := Service(s, now, missing[i]);
      ServiceKeeps(s, now, missing[i]);
      if !Judge(s, now, missing[i]).Resend? {
        ServedOriginals(s', now, missing, i + 1, emitted);
      } else {
        ResendOriginals(s, now, missing[i]);
        if emitted + 1 < s.cfg.maxNacksPerLoop { ServedOriginals(s', now, missing, i + 1, emitted + 1); }
      }
    }
  }

  lemma ResendOriginals(s: SenderState, now: int, q: u32)
    requires |s.ring| > 0 && Judge(s, now, q).Resend?
    ensures Originals(Service(s, now, q).outputs) == Originals(s.outputs)
  {
    hide OverBudget, Spacing, Originals;
    var out := Service(s, now, q).outputs;
    assert out == s.outputs + [Last(out)];
    OriginalsConcat(s.outputs, [Last(out)]);
    NoOriginals([Last(out)]);
  }

  /** Over any run each push leaves exactly once, at once and in order, with its sequence,
      its source time and what was handed in. */
  lemma {:induction false} PushesLeave(s: SenderState, ops: seq<Op>)
    requires WithinBudget(s)
    ensures forall i :: 0 <= i < |Pushed(s.nextSeq, ops)| ==> Pushed(s.nextSeq, ops)[i].Kept?
    ensures Originals(Run(s, ops).outputs)
         == Originals(s.outputs) + AllOriginal(Pushed(s.nextSeq, ops), s.txPath, s.ssrc)
    decreases |ops|
  {
    hide Step, Originals, Credit, Original;
    PushedKept(s.nextSeq, ops);
    if ops != [] {
      var r := Step(s, ops[0]);
      StepWithinBudget(s, ops[0]);
      StepOriginals(s, ops[0]);
      PushesLeave(r, ops[1..]);
      PushedStep(s.nextSeq, ops);
      var es := Pushed(s.nextSeq, [ops[0]]);
      assert AllOriginal(es + Pushed(r.nextSeq, ops[1..]), s.txPath, s.ssrc)
          == AllOriginal(es, s.txPath, s.ssrc) + AllOriginal(Pushed(r.nextSeq, ops[1..]), s.txPath, s.ssrc);
    }
  }

  lemma PushedStep(next: u32, ops: seq<Op>)
    requires ops != []
    ensures var es := Pushed(next, [ops[0]]);
      && (|es| == 1 ==> es[0].Kept?) && |es| <= 1
      && Pushed(next, ops) == es + Pushed(if es == [] then next else Add(es[0].seqno, 1), ops[1..])
  {
    hide NtpFromTimestamp;
    assert [ops[0]][1..] == [];
  }

  /** The packets kept, among some events. */
  function KeptIn(h: seq<Event>): seq<Event>
    decreases |h|
  {
    if h == [] then [] else (if h[0].Kept? then [h[0]] else []) + KeptIn(h[1..])
  }

  lemma {:induction false} KeptConcat(a: seq<Event>, b: seq<Event>)
    ensures KeptIn(a + b) == KeptIn(a) + KeptIn(b)
    decreases |a|
  {
    if a == [] {
      assert a + b == b;
    } else {
      KeptConcat(a[1..], b);
      var first := if a[0].Kept? then [a[0]] else [];
      assert (a + b)[0] == a[0] && (a + b)[1..] == a[1..] + b;
      assert first + (KeptIn(a[1..]) + KeptIn(b)) == (first + KeptIn(a[1..])) + KeptIn(b);
    }
  }

  lemma {:induction false} ServedKeepsNone(s: SenderState, now: int, missing: seq<u32>, i: nat, emitted: nat)
    requires |s.ring| > 0 && i <= |missing|
    ensures KeptIn(ServedFrom(s, now, missing, i, emitted)) == []
    decreases |missing| - i
  {
    hide Judge, Spacing;
    if i < |missing| {
      var s' := Service(s, now, missing[i]);
      ServiceKeeps(s, now, missing[i]);
      if !Judge(s, now, missing[i]).Resend? {
        ServedKeepsNone(s', now, missing, i + 1, emitted);
      } else if emitted + 1 < s.cfg.maxNacksPerLoop {
        ServedKeepsNone(s', now, missing, i + 1, emitted + 1);
      }
    }
  }

  /** Unless the transport is one-way, what is kept for re-sending is what was pushed. */
  lemma {:induction false} PushesKept(s: SenderState, ops: seq<Op>)
    requires WithinBudget(s)
    ensures KeptIn(Trace(s, ops)) == if s.cfg.noRecovery then [] else Pushed(s.nextSeq, ops)
    decreases |ops|
  {
    hide Step, Happens, Credit;
    if ops != [] {
      var r := Step(s, ops[0]);
      StepWithinBudget(s, ops[0]);
      StepOriginals(s, ops[0]);
      StepKept(s, ops[0]);
      PushesKept(r, ops[1..]);
      PushedStep(s.nextSeq, ops);
      KeptConcat(Happens(s, ops[0]), Trace(r, ops[1..]));
    }
  }

  lemma StepKept(s: SenderState, op: Op)
    requires RingSize(|s.ring|)
    ensures KeptIn(Happens(s, op)) == if s.cfg.noRecovery then [] else Pushed(s.nextSeq, [op])
  {
    hide NtpFromTimestamp, ServedFrom;
    assert [op][1..] == [];
    if IsNack(op) {
      ServedKeepsNone(s.(dataBW := s.dataBW.Feed(op.now, 0), retryBW := s.retryBW.Feed(op.now, 0)), op.now, op.fb.missing, 0, 0);
    }
  }

  // ---- what the gate reads ----

  /** What a run shows the average of the first transmissions: each push with its size on
      the wire, and each request with none. */
  function DataFeeds(ops: seq<Op>): Feeds
    decreases |ops|
  {
    if ops == [] then [] else
    (if ops[0].OpPush? then [(ops[0].now, |ops[0].payload| + 28)]
     else if IsNack(ops[0]) then [(ops[0].now, 0)] else []) + DataFeeds(ops[1..])
  }

  lemma {:induction false} ObservedConcat(e: Ewma, a: Feeds, b: Feeds)
    ensures Observed(e, a + b) == Observed(Observed(e, a), b)
    decreases |b|
  {
    hide Ewma.Feed;
    if b == [] {
      assert a + b == a;
    } else {
      ObservedConcat(e, a, Most(b));
      assert Most(a + b) == a + Most(b) && Last(a + b) == Last(b);
    }
  }

  lemma StepObserves(s: SenderState, op: Op)
    requires RingSize(|s.ring|)
    ensures Step(s, op).dataBW == Observed(s.dataBW, DataFeeds([op]))
  {
    hide NtpFromTimestamp, NtpToTimestamp, TruncDiv, ServiceFrom, Ewma.Feed;
    assert [op][1..] == [];
    if op.OpPush? {
      assert Most([(op.now, |op.payload| + 28)]) == [];
    } else if IsNack(op) {
      assert Most([(op.now, 0 as nat)]) == [];
      ServedData(s.(dataBW := s.dataBW.Feed(op.now, 0), retryBW := s.retryBW.Feed(op.now, 0)), op.now, op.fb.missing, 0, 0);
    }
  }

  lemma {:induction false} ServedData(s: SenderState, now: int, missing: seq<u32>, i: nat, emitted: nat)
    requires |s.ring| > 0 && i <= |missing|
    ensures ServiceFrom(s, now, missing, i, emitted).dataBW == s.dataBW
    decreases |missing| - i
  {
    hide Judge;
    if i < |missing| {
      var s' := Service(s, now, missing[i]);
      ServiceKeeps(s, now, missing[i]);
      if !Judge(s, now, missing[i]).Resend? {
        ServedData(s', now, missing, i + 1, emitted);
      } else if emitted + 1 < s.cfg.maxNacksPerLoop {
        ServedData(s', now, missing, i + 1, emitted + 1);
      }
    }
  }

  /** The average of the first transmissions is that of exactly the pushes of the run. */
  lemma {:induction false} RunObserves(s: SenderState, ops: seq<Op>)
    requires WithinBudget(s)
    ensures Run(s, ops).dataBW == Observed(s.dataBW, DataFeeds(ops))
    decreases |ops|
  {
    hide Step, Observed, Credit;
    if ops == [] {
      NothingObserved(s.dataBW);
    } else {
      StepWithinBudget(s, ops[0]);
      StepObserves(s, ops[0]);
      RunObserves(Step(s, ops[0]), ops[1..]);
      ObservedConcat(s.dataBW, DataFeeds([ops[0]]), DataFeeds(ops[1..]));
      assert [ops[0]][1..] == [];
      assert DataFeeds([ops[0]]) + DataFeeds(ops[1..]) == DataFeeds(ops);
    }
  }

  /** What re-sends show the average of the re-sends: each its size on the wire. */
  function RetryFeeds(now: int, outs: seq<Output>): Feeds {
    if outs == [] then []
    else RetryFeeds(now, Most(outs)) +
         (if Last(outs).SendMedia? && Last(outs).pkt.retransmit then [(now, |Last(outs).pkt.payload| + 28)] else [])
  }

  lemma {:induction false} RetryConcat(now: int, a: seq<Output>, b: seq<Output>)
    ensures RetryFeeds(now, a + b) == RetryFeeds(now, a) + RetryFeeds(now, b)
    decreases |b|
  {
    if b == [] {
      assert a + b == a;
    } else {
      RetryConcat(now, a, Most(b));
      assert Most(a + b) == a + Most(b) && Last(a + b) == Last(b);
      var last := if Last(b).SendMedia? && Last(b).pkt.retransmit then [(now, |Last(b).pkt.payload| + 28)] else [];
      assert RetryFeeds(now, a) + RetryFeeds(now, Most(b)) + last == RetryFeeds(now, a) + (RetryFeeds(now, Most(b)) + last);
    }
  }

  lemma {:induction false} NoRetries(now: int, outs: seq<Output>)
    requires forall i :: 0 <= i < |outs| ==> !(outs[i].SendMedia? && outs[i].pkt.retransmit)
    ensures RetryFeeds(now, outs) == []
  {
    if outs != [] { NoRetries(now, Most(outs)); }
  }

  lemma OneRetry(e: Ewma, now: int, o: Output)
    requires o.SendMedia? && o.pkt.retransmit
    ensures Observed(e, RetryFeeds(now, [o])) == e.Feed(now, |o.pkt.payload| + 28)
  {
    hide Ewma.Feed, Observed;
    var n: nat := |o.pkt.payload| + 28;
    assert Most([o]) == [] && Last([o]) == o;
    assert RetryFeeds(now, [o]) == [(now, n)];
    ObservedOne(e, now, n);
  }

  lemma ObservedOne(e: Ewma, now: int, n: nat)
    ensures Observed(e, [(now, n)]) == e.Feed(now, n)
  {
    hide Ewma.Feed;
    var fs: Feeds := [(now, n)];
    assert |Most(fs)| == 0;
    NothingObserved(e);
  }

  lemma ServiceRetries(s: SenderState, now: int, q: u32)
    requires |s.ring| > 0
    ensures var r := Service(s, now, q);
      && s.outputs <= r.outputs && r.retryBW == Observed(s.retryBW, RetryFeeds(now, r.outputs[|s.outputs|..]))
  {
    hide OverBudget, Spacing, Ewma.Feed, RetryFeeds, Observed;
    var r := Service(s, now, q);
    if Judge(s, now, q).Resend? {
      assert r.outputs[|s.outputs|..] == [Last(r.outputs)];
      OneRetry(s.retryBW, now, Last(r.outputs));
    } else {
      assert r.outputs[|s.outputs|..] == [];
      NoRetries(now, []);
      NothingObserved(s.retryBW);
    }
  }

  lemma {:induction false} ServedRetries(s: SenderState, now: int, missing: seq<u32>, i: nat, emitted: nat)
    requires |s.ring| > 0 && i <= |missing|
    ensures var r := ServiceFrom(s, now, missing, i, emitted);
      && s.outputs <= r.outputs && r.retryBW == Observed(s.retryBW, RetryFeeds(now, r.outputs[|s.outputs|..]))
    decreases |missing| - i
  {
    hide Judge, Service, RetryFeeds, Observed;
    var r := ServiceFrom(s, now, missing, i, emitted);
    if i == |missing| {
      NoRetries(now, r.outputs[|s.outputs|..]);
      NothingObserved(s.retryBW);
    } else {
      var s' := Service(s, now, missing[i]);
      ServiceKeeps(s, now, missing[i]);
      ServiceRetries(s, now, missing[i]);
      if !Judge(s, now, missing[i]).Resend? {
        ServedRetries(s', now, missing, i + 1, emitted);
        RetriesChain(s, s', r, now);
      } else if emitted + 1 < s.cfg.maxNacksPerLoop {
        ServedRetries(s', now, missing, i + 1, emitted + 1);
        RetriesChain(s, s', r, now);
      }
    }
  }

  lemma RetriesChain(a: SenderState, b: SenderState, c: SenderState, now: int)
    requires a.outputs <= b.outputs <= c.outputs
    requires b.retryBW == Observed(a.retryBW, RetryFeeds(now, b.outputs[|a.outputs|..]))
    requires c.retryBW == Observed(b.retryBW, RetryFeeds(now, c.outputs[|b.outputs|..]))
    ensures c.retryBW == Observed(a.retryBW, RetryFeeds(now, c.outputs[|a.outputs|..]))
  {
    hide RetryFeeds, Observed;
    var (x, y) := (b.outputs[|a.outputs|..], c.outputs[|b.outputs|..]);
    assert c.outputs[|a.outputs|..] == x + y;
    RetryConcat(now, x, y);
    ObservedConcat(a.retryBW, RetryFeeds(now, x), RetryFeeds(now, y));
  }

  /** The average of the re-sends is refreshed by each request and then fed exactly what
      the request made the sender re-send; nothing else touches it. */
  lemma StepRetries(s: SenderState, op: Op)
    requires RingSize(|s.ring|)
    ensures var r := Step(s, op);
      && s.outputs <= r.outputs
      && r.retryBW == (if IsNack(op) then Observed(s.retryBW.Feed(op.now, 0), RetryFeeds(op.now, r.outputs[|s.outputs|..]))
                       else s.retryBW)
      && (!IsNack(op) ==> RetryFeeds(op.now, r.outputs[|s.outputs|..]) == [])
  {
    hide NtpFromTimestamp, NtpToTimestamp, TruncDiv, ServiceFrom, Ewma.Feed, RetryFeeds, Observed;
    if IsNack(op) {
      ServedRetries(s.(dataBW := s.dataBW.Feed(op.now, 0), retryBW := s.retryBW.Feed(op.now, 0)), op.now, op.fb.missing, 0, 0);
    } else {
      NoRetries(op.now, Step(s, op).outputs[|s.outputs|..]);
    }
  }

  lemma NothingObserved(e: Ewma)
    ensures Observed(e, []) == e
  {
  }

  /** Once the pushes of a run have filled enough windows above the ceiling, the next
      request is answered with nothing, whatever it asks for. */
  lemma PushesShutGate(s: SenderState, ops: seq<Op>, h: seq<Event>, now: int, peer: u32, missing: seq<u32>)
    requires WithinBudget(s) && Logged(Run(s, ops), h) && Paced(h, s.cfg.maxRetries)
    requires !s.cfg.congestion.CongestionOff? && s.cfg.recoveryMaxBitrate >= 0
    requires var (fs, low) := (DataFeeds(ops) + [(now, 0)], s.cfg.recoveryMaxBitrate * 1000 + 1);
      var (w, span) := DataWindow(s.cfg.congestion, s.dataBW.Awake(fs[0].0));
      SamplesAbove(w, fs, span, low) && ClosingFeeds(w, fs, span) >= RiseTime(low)
    ensures FeedFeedback(Run(s, ops), now, NackRequest(peer, missing)).outputs == Run(s, ops).outputs
  {
    hide Run, Logged, Paced, FeedFeedback, SamplesAbove, ClosingFeeds, RiseTime, OverBudget, Credit, Observed;
    var r := Run(s, ops);
    var fs := DataFeeds(ops) + [(now, 0)];
    RunObserves(s, ops);
    ObservedLast(s.dataBW, DataFeeds(ops), now);
    GateShuts(s.cfg.congestion, s.dataBW, fs, r.retryBW.Feed(now, 0), s.cfg.recoveryMaxBitrate);
    LoggedShape(r, h);
    NackAnswered(r, h, now, peer, missing);
    ShutAnswers(h, TermsAt(r, now), missing, Max(r.cfg.maxNacksPerLoop, 1), r.txPath, r.ssrc);
  }

  lemma ObservedLast(e: Ewma, fs: Feeds, now: int)
    ensures Observed(e, fs + [(now, 0)]) == Observed(e, fs).Feed(now, 0)
  {
    assert Most(fs + [(now, 0 as nat)]) == fs;
  }

  lemma {:induction false} ShutAnswers(h: seq<Event>, t: Terms, missing: seq<u32>, budget: nat, path: int, ssrc: u32)
    requires t.n > 0 && t.shut
    ensures var fs := Answer(h, t, missing, budget);
      && |fs| <= |missing| && (forall i :: 0 <= i < |fs| ==> !fs[i].Resend?)
      && Replies(h, t.n, missing, fs, path, ssrc) == []
    decreases |missing|
  {
    hide Retained, TooSoon, Reply;
    if missing != [] && budget > 0 {
      ShutAnswers(h, t, missing[1..], budget, path, ssrc);
      var fs := Answer(h, t, missing, budget);
      assert fs[1..] == Answer(h, t, missing[1..], budget);
    }
  }

  // ---- the rest ----

  lemma {:induction false} ServedIgnores(s: SenderState, now: int, missing: seq<u32>, i: nat, emitted: nat)
    requires |s.ring| > 0 && i <= |missing|
    ensures ServiceFrom(s, now, missing, i, emitted).ignored == s.ignored
    decreases |missing| - i
  {
    hide Judge;
    if i < |missing| {
      var s' := Service(s, now, missing[i]);
      ServiceKeeps(s, now, missing[i]);
      if !Judge(s, now, missing[i]).Resend? {
        ServedIgnores(s', now, missing, i + 1, emitted);
      } else if emitted + 1 < s.cfg.maxNacksPerLoop {
        ServedIgnores(s', now, missing, i + 1, emitted + 1);
      }
    }
  }

  /** The feedback of a run that is neither an echo nor a request. */
  function Stray(ops: seq<Op>): nat
    decreases |ops|
  {
    if ops == [] then 0 else (if ops[0].OpFeedback? && ops[0].fb.OtherFeedback? then 1 else 0) + Stray(ops[1..])
  }

  /** Over any run exactly that is counted as ignored. */
  lemma {:induction false} RunStray(s: SenderState, ops: seq<Op>)
    requires WithinBudget(s)
    ensures Run(s, ops).ignored == s.ignored + Stray(ops)
    decreases |ops|
  {
    hide Credit, ServiceFrom, NtpFromTimestamp, NtpToTimestamp, TruncDiv, Ewma.Feed;
    if ops != [] {
      var op := ops[0];
      StepWithinBudget(s, op);
      if IsNack(op) {
        ServedIgnores(s.(dataBW := s.dataBW.Feed(op.now, 0), retryBW := s.retryBW.Feed(op.now, 0)), op.now, op.fb.missing, 0, 0);
      }
      RunStray(Step(s, op), ops[1..]);
    }
  }
}
