/** What becomes of an arriving packet, told from the packet and the state it meets:
    exactly when it is buffered, as what, which losses it reveals and which timers it
    sets (internal/flow/receiver.go). */
module ReceiverFeed {
  import opened Arith
  import opened Serial
  import opened FlowTypes
  import opened PlayoutBuffer
  import opened ReceiverSpec
  import opened ReceiverProps
  import Recovery

  // ---- when a packet is taken ----

  /** Another flow: the ids differ in more than the retransmit bit. */
  predicate OtherFlow(c: Core, pkt: MediaPacket) { pkt.ssrc / 2 != c.ssrc / 2 }

  /** The packet belongs to the flow in progress. */
  predicate Continues(c: Core, pkt: MediaPacket) { c.started && (pkt.retransmit || !OtherFlow(c, pkt)) }

  /** A fresh packet in the other framing. */
  predicate Reframes(c: Core, pkt: MediaPacket) { !pkt.retransmit && pkt.shortSeq != c.clk.shortSeq }

  /** The instant a packet of the flow is placed at, and that of the newest packet. A
      packet in a new framing re-locks the clock, so that it is placed at now. */
  function Placed(c: Core, now: int, pkt: MediaPacket): (int, int) {
    if Reframes(c, pkt) then (now, now) else
    var (clk, at) := Track(c.clk, c.x, now, pkt);
    (at, clk.lastPacketTime)
  }

  /** Older than the newest packet. The successor of the last one found never is, and on
      arrival timing nothing is. */
  predicate Older(c: Core, now: int, pkt: MediaPacket) {
    && !c.x.cfg.timing.TimingArrival?
    && Placed(c, now, pkt).0 < Placed(c, now, pkt).1
    && pkt.seqno != Add(c.arq.lastFound, 1)
  }

  /** Older than the newest packet, by more than its buffer and a tenth. */
  predicate Expired(c: Core, now: int, pkt: MediaPacket) {
    Older(c, now, pkt) && now > Placed(c, now, pkt).0 + Mul110(c.x.recoveryBuffer)
  }

  /** The very packet is buffered. */
  predicate Copied(b: Buffer, pkt: MediaPacket) {
    exists i :: 0 <= i < |b.ring| && b.ring[i].Filled?
             && b.ring[i].held.seqno == pkt.seqno && b.ring[i].held.sourceTime == pkt.sourceTime
  }

  /** What a packet of the flow must be to be taken: not past its time, not behind the
      cursor, and not there already. Whether it is a retransmission does not matter. */
  predicate Takes(c: Core, now: int, pkt: MediaPacket) {
    !Expired(c, now, pkt) && !Less(pkt.seqno, c.buf.deliverNext) && !Copied(c.buf, pkt)
  }

  /** From b to r the packet was stored in its slot, due a buffer after `at`. */
  predicate Stores(b: Buffer, r: Buffer, pkt: MediaPacket, now: int, at: int, buffer: int)
    requires |b.ring| > 0
  {
    var i := pkt.seqno % |b.ring|;
    && |r.ring| == |b.ring|
    && r.ring[i] == Filled(Held(pkt.seqno, pkt.sourceTime, pkt.payload, pkt.frag, pkt.virtSrcPort, pkt.virtDstPort,
                                now, at, at + buffer))
    && (forall j :: 0 <= j < |b.ring| && j != i ==> r.ring[j] == b.ring[j])
    && r == b.(ring := r.ring, highest := r.highest, received := b.received + 1,
               overwritten := b.overwritten + (if b.ring[i].Filled? then 1 else 0))
    && r.highest == (if Less(b.highest, pkt.seqno) then pkt.seqno else b.highest)
  }

  // ---- which losses it reveals ----

  /** The widest gap that is read as loss. */
  function GapCap(c: Core, pkt: MediaPacket): int {
    var short := if Reframes(c, pkt) then pkt.shortSeq else c.clk.shortSeq;
    if short then 32768 else |c.buf.ring| / 2
  }

  /** An original that is not out of order moves the last sequence found. */
  predicate Finds(c: Core, now: int, pkt: MediaPacket) {
    Takes(c, now, pkt) && !pkt.retransmit && !Older(c, now, pkt)
  }

  /** The losses an original reveals: those between it and the last one found, if the gap
      is not too wide and there is a return channel. */
  function Revealed(c: Core, now: int, pkt: MediaPacket): nat {
    var gap := Fwd(c.arq.lastFound, pkt.seqno);
    if Finds(c, now, pkt) && !c.x.cfg.noRecovery && 2 <= gap <= GapCap(c, pkt) then gap - 1 else 0
  }

  /** The entries the queue has room for before it is over its bound. */
  function Room(a: Recovery.Arq, cfg: Config): nat {
    if |a.missing| <= cfg.missingCounterMax then cfg.missingCounterMax + 1 - |a.missing| else 0
  }

  /** How many of n losses are queued: as many as there is room for, and fewer than a ring
      of more than one slot has. */
  function Queued(n: nat, room: nat, ring: nat): nat {
    Min(Min(n, room), if ring > 1 then ring - 1 else n)
  }

  /** An instant within the recovery buffer before now; any other is taken to be now. */
  function Dated(t: int, now: int, buffer: int): int { if now - buffer <= t <= now then t else now }

  /** The wait before a loss is first requested: half a round trip, but no less than the
      reorder buffer. */
  function FirstWait(x: Context): int {
    var half := TruncDiv(x.est.Clamped(x.cfg), 2);
    if half < x.cfg.reorderBuffer then x.cfg.reorderBuffer else half
  }

  /** The entry for the i-th loss after m, dated i + 1 even steps after `last`. */
  function Loss(x: Context, now: int, path: int, m: u32, last: int, step: int, i: nat): Recovery.Entry
    requires i <= SPACE
  {
    Recovery.Entry(Add(m, i), path, 0, Dated(last + Mul(i + 1, step), now, x.recoveryBuffer), now + FirstWait(x))
  }

  function Losses(x: Context, now: int, path: int, m: u32, last: int, step: int, k: nat): seq<Recovery.Entry>
    requires k <= SPACE
  {
    seq(k, i requires 0 <= i < k => Loss(x, now, path, m, last, step, i))
  }

  lemma {:induction false} WalkIs(a: Recovery.Arq, x: Context, now: int, path: int, m: u32, current: u32,
                                  nackTime: int, step: int, count: nat, n: nat)
    requires a.missingCount == |a.missing| && count >= 1 && (count < n || n <= 1)
    ensures var k := Queued(Fwd(m, current), Room(a, x.cfg), if n > 1 then n - count + 1 else n);
      Recovery.MarkWalk(a, x, now, path, m, current, nackTime, step, count, n) ==
        a.(missing := a.missing + Losses(x, now, path, m, nackTime, step, k),
           missingCount := a.missingCount + k, missingTotal := a.missingTotal + k)
    decreases Fwd(m, current)
  {
    hide Fwd, Add, Losses, Loss, Queued, Recovery.AddMissing;
    Recovery.FwdFalls(m, current);
    FwdNatural(m, current);
    var left := if n > 1 then n - count + 1 else n;
    var k := Queued(Fwd(m, current), Room(a, x.cfg), left);
    QueuedIs(Fwd(m, current), Room(a, x.cfg), left);
    if m != current && a.missingCount <= x.cfg.missingCounterMax {
      var t := nackTime + step;
      var a' := Recovery.AddMissing(a, x, now, path, m, t);
      AddIs(a, x, now, path, m, nackTime, step);
      if count + 1 == n {
        LossesOne(x, now, path, m, nackTime, step);
      } else {
        WalkIs(a', x, now, path, Add(m, 1), current, t, step, count + 1, n);
        LossesCons(x, now, path, m, nackTime, step, k - 1);
        SeqAssoc(a.missing, [Loss(x, now, path, m, nackTime, step, 0)], Losses(x, now, path, Add(m, 1), t, step, k - 1));
      }
    } else {
      LossesNone(x, now, path, m, nackTime, step);
      assert a.missing + [] == a.missing;
    }
  }

  lemma QueuedIs(n: nat, room: nat, ring: nat)
    ensures Queued(n, room, ring) <= n && (n == 0 || room == 0 ==> Queued(n, room, ring) == 0)
    ensures n > 0 && room > 0 && ring == 2 ==> Queued(n, room, ring) == 1
    ensures n > 0 && room > 0 && ring != 2 ==>
      Queued(n, room, ring) == 1 + Queued(n - 1, room - 1, if ring > 1 then ring - 1 else ring)
  {
  }

  lemma LossesNone(x: Context, now: int, path: int, m: u32, last: int, step: int)
    ensures Losses(x, now, path, m, last, step, 0) == []
  {
  }

  lemma SeqAssoc<T>(a: seq<T>, b: seq<T>, c: seq<T>)
    ensures (a + b) + c == a + (b + c)
  {
  }

  lemma AddIs(a: Recovery.Arq, x: Context, now: int, path: int, m: u32, last: int, step: int)
    ensures Recovery.AddMissing(a, x, now, path, m, last + step) ==
      a.(missing := a.missing + [Loss(x, now, path, m, last, step, 0)],
         missingCount := a.missingCount + 1, missingTotal := a.missingTotal + 1)
  {
    hide TruncDiv;
    MulStep(0, step);
    Recovery.AddZero(m);
  }

  lemma LossesOne(x: Context, now: int, path: int, m: u32, last: int, step: int)
    ensures Losses(x, now, path, m, last, step, 1) == [Loss(x, now, path, m, last, step, 0)]
  {
  }

  lemma LossesCons(x: Context, now: int, path: int, m: u32, last: int, step: int, k: nat)
    requires k + 1 <= SPACE
    ensures Losses(x, now, path, m, last, step, k + 1)
         == [Loss(x, now, path, m, last, step, 0)] + Losses(x, now, path, Add(m, 1), last + step, step, k)
  {
    hide Mul, TruncDiv, Add;
    var (whole, rest) := (Losses(x, now, path, m, last, step, k + 1), Losses(x, now, path, Add(m, 1), last + step, step, k));
    forall i | 0 <= i < k ensures whole[i + 1] == rest[i] {
      MulStep(i + 1, step);
      Recovery.AddAdd(m, i + 1);
    }
  }

  // ---- the whole step ----

  /** The state an arriving packet of the flow leaves: everything that can influence a
      later delivery, request or timer. */
  predicate FeedsTo(c: Core, now: int, path: int, pkt: MediaPacket, r: Core)
    requires |c.buf.ring| > 0
  {
    var (at, buffer) := (Placed(c, now, pkt).0, c.x.recoveryBuffer);
    var (takes, due) := (Takes(c, now, pkt), at + buffer);
    && (if takes then Stores(c.buf, r.buf, pkt, now, at, buffer) else r.buf == c.buf)
    && QueuesTo(c, now, path, pkt, r)
    && r.lastPath == (if takes then path else c.lastPath)
    && r.started && r.ssrc == c.ssrc && r.x == c.x && r.flowResets == c.flowResets
    && r.reordered == c.reordered + (if takes && Older(c, now, pkt) && !pkt.retransmit then 1 else 0)
    && r.ignoredFeedback == c.ignoredFeedback
    && r.playoutArmed == (c.playoutArmed || takes)
    && r.playoutDeadline == (if takes && (!c.playoutArmed || due < c.playoutDeadline) then due else c.playoutDeadline)
    && r.outputs == c.outputs
         + (if takes && (!c.playoutArmed || due < c.playoutDeadline) then [SetTimer(TimerPlayout, due)] else [])
         + (if takes && r.arq.missing != [] && !c.arq.nackArmed then [SetTimer(TimerNack, now + 5_000)] else [])
  }

  /** The missing queue grows by exactly the losses revealed, first to last, as far as
      there is room. */
  predicate QueuesTo(c: Core, now: int, path: int, pkt: MediaPacket, r: Core)
    requires |c.buf.ring| > 0
  {
    var (found, n) := (c.arq.lastFound, Revealed(c, now, pkt));
    var gap: int := Fwd(found, pkt.seqno);
    var k := Queued(n, Room(c.arq, c.x.cfg), |c.buf.ring|);
    && r.arq.lastFound == (if Finds(c, now, pkt) then pkt.seqno else found)
    && (n == 0 ==> r.arq == c.arq.(lastFound := r.arq.lastFound, nackArmed := r.arq.nackArmed))
    && (n > 0 ==>
          && |r.buf.ring| > 0
          && var last := if HoldsAt(r.buf.ring, found) then r.buf.ring[found % |r.buf.ring|].held.packetTime else now;
             var step := Max(Placed(c, now, pkt).0 - last, 0) / (gap + 1);
             r.arq == c.arq.(missing := c.arq.missing + Losses(c.x, now, path, Add(found, 1), last, step, k),
                             missingCount := c.arq.missingCount + k, missingTotal := c.arq.missingTotal + k,
                             lastFound := pkt.seqno, nackArmed := r.arq.nackArmed))
    && r.arq.nackArmed == (c.arq.nackArmed || (Takes(c, now, pkt) && r.arq.missing != []))
  }

  lemma SameFlow(a: u32, b: u32)
    ensures FlowId(a) == FlowId(b) <==> a / 2 == b / 2
  {
  }

  /** A re-locked clock places the packet at now. */
  lemma RelockedPlaces(c: Core, now: int, pkt: MediaPacket)
    ensures var (clk, at) := Track(Reframe(c.clk, now, pkt), c.x, now, pkt); at == now && clk == Reframe(c.clk, now, pkt)
  {
    hide NtpToTimestamp;
  }

  /** The clock that judges an arriving packet. */
  function ClockFor(c: Core, now: int, pkt: MediaPacket): Clock {
    if Reframes(c, pkt) then Reframe(c.clk, now, pkt) else Track(c.clk, c.x, now, pkt).0
  }

  lemma PreparedIs(c: Core, now: int, pkt: MediaPacket)
    requires Continues(c, pkt)
    ensures var c1 := Prepare(c, now, pkt);
      && c1 == c.(clk := if Reframes(c, pkt) then Reframe(c.clk, now, pkt) else c.clk)
      && Track(c1.clk, c1.x, now, pkt) == (ClockFor(c, now, pkt), Placed(c, now, pkt).0)
      && ClockFor(c, now, pkt).lastPacketTime == Placed(c, now, pkt).1
      && ClockFor(c, now, pkt).shortSeq == (if Reframes(c, pkt) then pkt.shortSeq else c.clk.shortSeq)
  {
    hide NtpToTimestamp;
    SameFlow(c.ssrc, pkt.ssrc);
    RelockedPlaces(c, now, pkt);
  }

  lemma CopiedIs(b: Buffer, pkt: MediaPacket)
    requires b.Valid()
    ensures Copied(b, pkt) <==> b.Holds(pkt.seqno) && b.Get(pkt.seqno).sourceTime == pkt.sourceTime
  {
  }

  lemma VerdictIs(c: Core, now: int, pkt: MediaPacket)
    requires c.buf.Valid() && Continues(c, pkt)
    ensures var v := VerdictOn(Prepare(c, now, pkt), now, pkt);
      v.Accept? == Takes(c, now, pkt) && (v.Accept? ==> v.outOfOrder == (Older(c, now, pkt) && !pkt.retransmit))
  {
    hide Track, Mul110;
    PreparedIs(c, now, pkt);
    CopiedIs(c.buf, pkt);
  }

  lemma InsertStores(b: Buffer, pkt: MediaPacket, now: int, at: int, buffer: int)
    requires b.Valid()
    ensures Stores(b, Insert(b, Hold(pkt, now, at, buffer)), pkt, now, at, buffer)
  {
  }

  /** An arriving packet of the flow in progress is buffered exactly when it is in time,
      not behind the cursor and not there already; otherwise the buffer is as it was.
      What it reveals is queued, first to last, and the timers are set. */
  lemma FeedExact(c: Core, now: int, path: int, pkt: MediaPacket)
    requires Valid(c) && Continues(c, pkt)
    ensures FeedsTo(c, now, path, pkt, FeedCore(c, now, path, pkt))
    ensures FeedCore(c, now, path, pkt).clk == ClockFor(c, now, pkt)
  {
    hide Placed, Takes, Older, Track, Stores, QueuesTo, Absorb, Judge;
    PreparedIs(c, now, pkt);
    VerdictIs(c, now, pkt);
    var c1 := Prepare(c, now, pkt);
    var c2 := c1.(clk := ClockFor(c, now, pkt));
    var v := VerdictOn(c1, now, pkt);
    if v.Accept? {
      AdmitFeeds(c, c2, now, path, pkt, v.outOfOrder);
    } else {
      RefusalFeeds(c, c2, now, path, pkt);
    }
  }

  lemma RefusalFeeds(c: Core, c2: Core, now: int, path: int, pkt: MediaPacket)
    requires Valid(c) && c.started && !Takes(c, now, pkt) && c2 == c.(clk := c2.clk)
    ensures FeedsTo(c, now, path, pkt, c2)
  {
    hide Placed, Takes, Older, Track, Stores;
  }

  /** What the losses revealed do to the queue. */
  lemma MarkIs(c: Core, c2: Core, now: int, path: int, pkt: MediaPacket, ring: seq<Slot>)
    requires Valid(c) && c2 == c.(clk := c2.clk) && |ring| == |c.buf.ring| && Finds(c, now, pkt)
    requires c2.clk.shortSeq == (if Reframes(c, pkt) then pkt.shortSeq else c.clk.shortSeq)
    requires pkt.seqno != Add(c.arq.lastFound, 1)
    ensures var (found, n, at) := (c.arq.lastFound, Revealed(c, now, pkt), Placed(c, now, pkt).0);
      var gap: int := Fwd(found, pkt.seqno);
      var k := Queued(n, Room(c.arq, c.x.cfg), |ring|);
      var last := if HoldsAt(ring, found) then ring[found % |ring|].held.packetTime else now;
      var r := Recovery.MarkMissing(c.arq, c.x, ring, c2.clk.shortSeq, now, path, pkt.seqno, at);
      && (n == 0 ==> r == c.arq)
      && (n > 0 ==>
            r == c.arq.(missing := c.arq.missing
                          + Losses(c.x, now, path, Add(found, 1), last, Max(at - last, 0) / (gap + 1), k),
                        missingCount := c.arq.missingCount + k, missingTotal := c.arq.missingTotal + k))
  {
    hide Placed, Takes, Older, Mul, Losses, Queued, Room;
    var (found, at) := (c.arq.lastFound, Placed(c, now, pkt).0);
    var gap: int := Fwd(found, pkt.seqno);
    var last := if HoldsAt(ring, found) then ring[found % |ring|].held.packetTime else now;
    GapIs(found, pkt.seqno);
    if Revealed(c, now, pkt) > 0 {
      WalkIs(c.arq, c.x, now, path, Add(found, 1), pkt.seqno, last, Max(at - last, 0) / (gap + 1), 1, |ring|);
    }
  }

  lemma GapIs(found: u32, s: u32)
    ensures Fwd(found, s) == 0 <==> found == s
    ensures Fwd(found, s) == 1 <==> s == Add(found, 1)
    ensures Fwd(found, s) >= 1 ==> Fwd(Add(found, 1), s) == Fwd(found, s) - 1
  {
  }

  lemma AbsorbQueues(c: Core, c2: Core, now: int, path: int, pkt: MediaPacket, outOfOrder: bool)
    requires Valid(c) && c.started && Takes(c, now, pkt) && c2 == c.(clk := c2.clk)
    requires c2.clk.shortSeq == (if Reframes(c, pkt) then pkt.shortSeq else c.clk.shortSeq)
    requires outOfOrder == (Older(c, now, pkt) && !pkt.retransmit)
    ensures var r := Absorb(c2, now, path, pkt, Placed(c, now, pkt).0, outOfOrder);
      && QueuesTo(c, now, path, pkt, r.(arq := r.arq.(nackArmed := c.arq.nackArmed || r.arq.missing != [])))
      && r.arq.missingCount == |r.arq.missing| && r.arq.nackArmed == c.arq.nackArmed
      && r == c2.(buf := r.buf, arq := r.arq, lastPath := path, reordered := c.reordered + (if outOfOrder then 1 else 0))
      && r.buf == Insert(c.buf, Hold(pkt, now, Placed(c, now, pkt).0, c.x.recoveryBuffer))
  {
    hide Placed, Takes, Older, Losses, Queued, Room, Recovery.MarkMissing;
    var at := Placed(c, now, pkt).0;
    var buf := Insert(c.buf, Hold(pkt, now, Placed(c, now, pkt).0, c.x.recoveryBuffer));
    GapIs(c.arq.lastFound, pkt.seqno);
    Recovery.MarkMissingValid(c.arq, c.x, buf.ring, c2.clk.shortSeq, now, path, pkt.seqno, at);
    if Finds(c, now, pkt) && pkt.seqno != Add(c.arq.lastFound, 1) {
      MarkIs(c, c2, now, path, pkt, buf.ring);
    }
  }

  lemma QueuesSame(c: Core, now: int, path: int, pkt: MediaPacket, r: Core, r': Core)
    requires |c.buf.ring| > 0 && QueuesTo(c, now, path, pkt, r) && r'.buf == r.buf && r'.arq == r.arq
    ensures QueuesTo(c, now, path, pkt, r')
  {
    hide Placed, Takes, Older, Losses, Queued, Room;
  }

  lemma AdmitFeeds(c: Core, c2: Core, now: int, path: int, pkt: MediaPacket, outOfOrder: bool)
    requires Valid(c) && c.started && Takes(c, now, pkt) && c2 == c.(clk := c2.clk)
    requires c2.clk.shortSeq == (if Reframes(c, pkt) then pkt.shortSeq else c.clk.shortSeq)
    requires outOfOrder == (Older(c, now, pkt) && !pkt.retransmit)
    ensures FeedsTo(c, now, path, pkt, Admit(c2, now, path, pkt, Placed(c, now, pkt).0, outOfOrder))
    ensures Admit(c2, now, path, pkt, Placed(c, now, pkt).0, outOfOrder).clk == c2.clk
  {
    hide Placed, Takes, Older, Stores, QueuesTo, Absorb, Insert;
    var at := Placed(c, now, pkt).0;
    AbsorbQueues(c, c2, now, path, pkt, outOfOrder);
    InsertStores(c.buf, pkt, now, at, c.x.recoveryBuffer);
    var r := Absorb(c2, now, path, pkt, at, outOfOrder);
    QueuesSame(c, now, path, pkt, r.(arq := r.arq.(nackArmed := c.arq.nackArmed || r.arq.missing != [])),
               Admit(c2, now, path, pkt, at, outOfOrder));
  }

  // ---- a flow begins ----

  /** The state a packet that begins a flow leaves: nothing of a flow before it is kept but
      what was delivered and what belongs to the link, and the packet alone is
      buffered, due one buffer from now. */
  predicate BeginsTo(c: Core, now: int, path: int, pkt: MediaPacket, r: Core) {
    var (n, due) := (|c.buf.ring|, now + c.x.recoveryBuffer);
    var sets := c.started || !c.playoutArmed || due < c.playoutDeadline;
    && r.started && r.ssrc == pkt.ssrc && r.lastPath == path && r.x == c.x
    && |r.buf.ring| == n > 0
    && r.buf.ring[pkt.seqno % n] ==
         Filled(Held(pkt.seqno, pkt.sourceTime, pkt.payload, pkt.frag, pkt.virtSrcPort, pkt.virtDstPort, now, now, due))
    && (forall i :: 0 <= i < n && i != pkt.seqno % n ==> r.buf.ring[i] == Empty)
    && r.buf == c.buf.(ring := r.buf.ring, deliverNext := pkt.seqno, highest := pkt.seqno,
                       pending := c.buf.pending && !c.started, received := c.buf.received + 1)
    && r.arq == c.arq.(missing := [], missingCount := 0, lastFound := pkt.seqno, nackArmed := c.arq.nackArmed && !c.started)
    && r.flowResets == c.flowResets + (if c.started then 1 else 0)
    && r.reordered == c.reordered && r.ignoredFeedback == c.ignoredFeedback
    && r.playoutArmed && r.playoutDeadline == (if sets then due else c.playoutDeadline)
    && r.outputs == c.outputs + (if sets then [SetTimer(TimerPlayout, due)] else [])
                  + (if c.x.cfg.noRecovery then [] else [SetTimer(TimerRttEcho, now + 100_000)])
    && r.clk == c.clk.(offset := now - NtpToTimestamp(pkt.sourceTime), shortSeq := pkt.shortSeq,
                       maxSourceTime := pkt.sourceTime, lastPacketTime := now, lastResync := now)
  }

  /** A packet that does not continue the flow begins one, unless it is a retransmission:
      that is ignored. */
  lemma FlowBegins(c: Core, now: int, path: int, pkt: MediaPacket)
    requires Valid(c) && !Continues(c, pkt)
    ensures var r := FeedCore(c, now, path, pkt);
      if pkt.retransmit then r == c && !c.started else BeginsTo(c, now, path, pkt, r)
  {
    hide NtpToTimestamp;
    SameFlow(c.ssrc, pkt.ssrc);
  }

  // ---- every arrival is counted once ----

  /** What the gauges say of an arriving packet: late if it is past its time or behind the
      cursor, a duplicate if it is there already, otherwise neither; the path is noted
      against the slot of a packet that is taken or a duplicate, and the gap since the
      last arrival is kept with its extremes. */
  predicate GaugedTo(g: Gauges, c: Core, now: int, path: int, pkt: MediaPacket, r: Gauges)
    requires |c.buf.ring| > 0
  {
    var (on, late, i, gap) := (Continues(c, pkt), Expired(c, now, pkt) || Less(pkt.seqno, c.buf.deliverNext),
                               pkt.seqno % |c.buf.ring|, now - g.ipsLastArrival);
    var copied := Copied(c.buf, pkt);
    && r.tooLate == g.tooLate + (if on && late then 1 else 0)
    && r.tooLateRetransmit == g.tooLateRetransmit + (if on && late && pkt.retransmit then 1 else 0)
    && r.duplicates == g.duplicates + (if on && !late && copied then 1 else 0)
    && r.retransmittedReceived == g.retransmittedReceived + (if on && pkt.retransmit then 1 else 0)
    && r.ipsLastArrival == now && r.ipsCur == (if c.started then gap else g.ipsCur)
    && r.ipsMin == (if c.started && gap < g.ipsMin then gap else g.ipsMin)
    && r.ipsMax == (if c.started && gap > g.ipsMax then gap else g.ipsMax)
    && |r.pathSeen| == |g.pathSeen| == |c.buf.ring|
    && r.pathSeen[i] == (if on && late then g.pathSeen[i]
                         else if on && copied then g.pathSeen[i] + {path % 64}
                         else if on || !pkt.retransmit then {path % 64}
                         else g.pathSeen[i])
    && (forall j :: 0 <= j < |r.pathSeen| && j != i ==>
          r.pathSeen[j] == if c.started && !on then {} else g.pathSeen[j])
  }

  lemma GaugesExact(g: Gauges, c: Core, now: int, path: int, pkt: MediaPacket)
    requires Valid(c) && |g.pathSeen| == |c.buf.ring|
    ensures GaugedTo(g, c, now, path, pkt, FeedGauges(g, c, now, path, pkt))
  {
    hide Track, Mul110, NtpToTimestamp;
    SameFlow(c.ssrc, pkt.ssrc);
    if Continues(c, pkt) {
      PreparedIs(c, now, pkt);
      CopiedIs(c.buf, pkt);
    }
  }

  /** Each packet handed in is accepted, late or a duplicate, and is counted once; only a
      retransmission before any flow is not counted. */
  lemma ArrivalCounted(g: Gauges, c: Core, now: int, path: int, pkt: MediaPacket)
    requires Valid(c) && |g.pathSeen| == |c.buf.ring|
    ensures var (r, f) := (FeedGauges(g, c, now, path, pkt), FeedCore(c, now, path, pkt));
      f.buf.received + r.tooLate + r.duplicates
        == c.buf.received + g.tooLate + g.duplicates + (if !c.started && pkt.retransmit then 0 else 1)
  {
    hide FeedCore, FeedGauges, Expired, Copied, Placed, QueuesTo, NtpToTimestamp;
    GaugesExact(g, c, now, path, pkt);
    if Continues(c, pkt) { FeedExact(c, now, path, pkt); } else { FlowBegins(c, now, path, pkt); }
  }
}
