/** The receiver's missing queue (internal/flow/receiver.go): gap detection, the
    NACK pass, its retry budget and its return-channel token bucket. */
module Recovery {
  import opened Serial
  import opened FlowTypes
  import opened PlayoutBuffer

  datatype Entry = Entry(seqno: u32, path: int, nackCount: nat, insertionTime: int, nextNack: int)

  /** Recovered entries, in total and by the number of NACKs each one needed. */
  datatype Recoveries = Recoveries(total: nat, one: nat, two: nat, three: nat, four: nat, more: nat) {
    function Count(nacks: nat): Recoveries
      requires nacks > 0
    {
      match nacks
      case 1 => this.(total := total + 1, one := one + 1)
      case 2 => this.(total := total + 1, two := two + 1)
      case 3 => this.(total := total + 1, three := three + 1)
      case 4 => this.(total := total + 1, four := four + 1)
      case _ => this.(total := total + 1, more := more + 1)
    }
    predicate Valid() { total == one + two + three + four + more }
  }

  datatype Arq = Arq(
    lastFound: u32,
    missing: seq<Entry>,
    missingCount: int,
    nackArmed: bool,
    tokens: real,
    tokensTime: int,
    missingTotal: nat,
    nacksSent: nat,
    recoveries: Recoveries,
    abandoned: nat)

  /** What the pass reads but does not change. */
  datatype Context = Context(cfg: Config, est: Estimator, recoveryBuffer: int)

  // ---- gap detection ----

  function AddMissing(a: Arq, x: Context, now: int, path: int, s: u32, nackTime: int): Arq {
    var insertion := if nackTime > now || nackTime < now - x.recoveryBuffer then now else nackTime;
    var firstRtt := Max(TruncDiv(x.est.Clamped(x.cfg), 2), x.cfg.reorderBuffer);
    a.(missing := a.missing + [Entry(s, path, 0, insertion, now + firstRtt)],
       missingCount := a.missingCount + 1,
       missingTotal := a.missingTotal + 1)
  }

  /** Queue m, m+1, ... up to but excluding `current`, until the queue is over its
      bound or a whole ring has been walked. */
  function MarkWalk(a: Arq, x: Context, now: int, path: int, m: u32, current: u32,
                    nackTime: int, interpacket: int, count: nat, n: nat): Arq
    decreases Fwd(m, current)
  {
    if m == current || a.missingCount > x.cfg.missingCounterMax then a
    else
      var a' := AddMissing(a, x, now, path, m, nackTime + interpacket);
      if count + 1 == n then a'
      else MarkWalk(a', x, now, path, Add(m, 1), current, nackTime + interpacket, interpacket, count + 1, n)
  }

  const MAX_GAP_16: int := 32768

  function MarkMissing(a: Arq, x: Context, ring: seq<Slot>, shortSeq: bool,
                       now: int, path: int, current: u32, packetTime: int): Arq
    requires |ring| > 0
  {
    if x.cfg.noRecovery then a else
    var gap := Fwd(a.lastFound, current);
    var maxGap := if shortSeq then MAX_GAP_16 else |ring| / 2;
    if gap > maxGap || gap == 0 then a else
    var last := if HoldsAt(ring, a.lastFound) then ring[a.lastFound % |ring|].held.packetTime else now;
    var interpacket := Max(packetTime - last, 0) / (gap + 1);
    MarkWalk(a, x, now, path, Add(a.lastFound, 1), current, last, interpacket, 1, |ring|)
  }

  // ---- the NACK pass ----

  datatype Sweep = Sweep(
    kept: seq<Entry>,
    batch: seq<u32>,
    tokens: real,
    recoveries: Recoveries,
    abandoned: nat)

  function SweepEntry(w: Sweep, e: Entry, x: Context, ring: seq<Slot>, now: int): Sweep
    requires |ring| > 0
  {
    var s := ring[e.seqno % |ring|];
    if s.Filled? && s.held.seqno == e.seqno then
      if e.nackCount > 0 then w.(recoveries := w.recoveries.Count(e.nackCount)) else w
    else if s.Filled? then w
    else if e.nackCount >= x.cfg.maxRetries then w.(abandoned := w.abandoned + 1)
    else if now - e.insertionTime > Mul110(x.recoveryBuffer) then w.(abandoned := w.abandoned + 1)
    else if now >= e.nextNack && |w.batch| < RIST_MAX_NACKS && (x.cfg.nackSeqsPerSec == 0.0 || w.tokens >= 1.0) then
      w.(kept := w.kept + [e.(nextNack := now + x.est.RetryInterval(x.cfg), nackCount := e.nackCount + 1)],
         batch := w.batch + [e.seqno],
         tokens := if x.cfg.nackSeqsPerSec > 0.0 then w.tokens - 1.0 else w.tokens)
    else w.(kept := w.kept + [e])
  }

  /** The pass over the first i entries. */
  function SweepTo(w: Sweep, es: seq<Entry>, i: nat, x: Context, ring: seq<Slot>, now: int): Sweep
    requires |ring| > 0 && i <= |es|
  {
    if i == 0 then w else SweepEntry(SweepTo(w, es, i - 1, x, ring, now), es[i - 1], x, ring, now)
  }

  function Refill(tokens: real, since: int, cfg: Config, now: int): real {
    if cfg.nackSeqsPerSec > 0.0 && now > since then
      var t := tokens + (now - since) as real / 1000000.0 * cfg.nackSeqsPerSec;
      if t > cfg.nackTokenBurst then cfg.nackTokenBurst else t
    else tokens
  }

  function Swept(a: Arq, x: Context, ring: seq<Slot>, now: int): Sweep
    requires |ring| > 0
  {
    SweepTo(Sweep([], [], Refill(a.tokens, a.tokensTime, x.cfg, now), a.recoveries, a.abandoned),
            a.missing, |a.missing|, x, ring, now)
  }

  /** One NACK pass: the new queue, and the sequences to request. */
  function ProcessNacks(a: Arq, x: Context, ring: seq<Slot>, now: int): (Arq, seq<u32>)
    requires |ring| > 0
  {
    if a.missingCount == 0 then (a, []) else
    var w := Swept(a, x, ring, now);
    (a.(missing := w.kept,
        missingCount := a.missingCount - (|a.missing| - |w.kept|),
        tokens := w.tokens,
        tokensTime := if x.cfg.nackSeqsPerSec > 0.0 then now else a.tokensTime,
        nacksSent := a.nacksSent + |w.batch|,
        recoveries := w.recoveries,
        abandoned := w.abandoned),
     w.batch)
  }

  // ---- what every operation keeps ----

  /** NACKs the queued entries may still be granted. */
  function Credit(es: seq<Entry>, maxRetries: nat): nat {
    if es == [] then 0
    else Credit(es[..|es| - 1], maxRetries) + Max(maxRetries - es[|es| - 1].nackCount, 0)
  }

  predicate Valid(a: Arq, cfg: Config) {
    && a.missingCount == |a.missing|
    && |a.missing| <= cfg.missingCounterMax + 1
    && (forall i :: 0 <= i < |a.missing| ==> a.missing[i].nackCount <= cfg.maxRetries)
    && a.nacksSent + Credit(a.missing, cfg.maxRetries) <= cfg.maxRetries * a.missingTotal
    && a.recoveries.Valid()
    && cfg.nackSeqsPerSec >= 0.0
    && 0.0 <= a.tokens <= cfg.nackTokenBurst
  }

  function NewArq(cfg: Config): Arq {
    Arq(0, [], 0, false, cfg.nackTokenBurst, 0, 0, 0, Recoveries(0, 0, 0, 0, 0, 0), 0)
  }

  lemma NewArqValid(cfg: Config)
    requires cfg.nackSeqsPerSec >= 0.0 && cfg.nackTokenBurst >= 0.0
    ensures Valid(NewArq(cfg), cfg)
  {
    assert cfg.maxRetries * 0 == 0;
  }

  lemma CreditAppend(es: seq<Entry>, e: Entry, maxRetries: nat)
    ensures Credit(es + [e], maxRetries) == Credit(es, maxRetries) + Max(maxRetries - e.nackCount, 0)
  {
    assert (es + [e])[..|es|] == es;
  }

  lemma AddMissingValid(a: Arq, x: Context, now: int, path: int, s: u32, nackTime: int)
    requires Valid(a, x.cfg) && a.missingCount <= x.cfg.missingCounterMax
    ensures Valid(AddMissing(a, x, now, path, s, nackTime), x.cfg)
  {
    var r := AddMissing(a, x, now, path, s, nackTime);
    CreditAppend(a.missing, r.missing[|a.missing|], x.cfg.maxRetries);
    assert x.cfg.maxRetries * (a.missingTotal + 1) == x.cfg.maxRetries * a.missingTotal + x.cfg.maxRetries;
  }

  lemma {:induction false} MarkWalkValid(a: Arq, x: Context, now: int, path: int, m: u32, current: u32,
                                         nackTime: int, interpacket: int, count: nat, n: nat)
    requires Valid(a, x.cfg)
    ensures var r := MarkWalk(a, x, now, path, m, current, nackTime, interpacket, count, n);
      && Valid(r, x.cfg)
      && r == a.(missing := r.missing, missingCount := r.missingCount, missingTotal := r.missingTotal)
    decreases Fwd(m, current)
  {
    if m != current && a.missingCount <= x.cfg.missingCounterMax {
      var a' := AddMissing(a, x, now, path, m, nackTime + interpacket);
      AddMissingValid(a, x, now, path, m, nackTime + interpacket);
      MarkWalkValid(a', x, now, path, Add(m, 1), current, nackTime + interpacket, interpacket, count + 1, n);
    }
  }

  /** A new entry for s, not yet requested, dated within the recovery buffer. */
  predicate Fresh(e: Entry, s: u32, x: Context, now: int) {
    e.seqno == s && e.nackCount == 0 && now - Max(x.recoveryBuffer, 0) <= e.insertionTime <= now
  }

  /** Gap detection appends consecutive sequences starting just past the last one
      found and never reaching `current`; it stops short only at a bound. */
  lemma {:induction false} MarkWalkAppends(a: Arq, x: Context, now: int, path: int, m: u32, current: u32,
                                           nackTime: int, interpacket: int, count: nat, n: nat)
    requires Valid(a, x.cfg)
    ensures var r := MarkWalk(a, x, now, path, m, current, nackTime, interpacket, count, n).missing;
      var k := |r| - |a.missing|;
      && a.missing <= r
      && 0 <= k <= Fwd(m, current)
      && (forall i :: 0 <= i < k ==> Fresh(r[|a.missing| + i], Add(m, i), x, now))
      && (k < Fwd(m, current) ==> |r| > x.cfg.missingCounterMax || count + k == n)
    decreases Fwd(m, current)
  {
    hide AddMissing, Valid, Fresh, Fwd, Add;
    FwdFalls(m, current);
    AddZero(m);
    if m != current && a.missingCount <= x.cfg.missingCounterMax {
      var a' := AddMissing(a, x, now, path, m, nackTime + interpacket);
      var r := MarkWalk(a, x, now, path, m, current, nackTime, interpacket, count, n).missing;
      AddMissingValid(a, x, now, path, m, nackTime + interpacket);
      AddMissingAppends(a, x, now, path, m, nackTime + interpacket);
      if count + 1 != n {
        MarkWalkAppends(a', x, now, path, Add(m, 1), current, nackTime + interpacket, interpacket, count + 1, n);
        forall i | 0 <= i < |r| - |a.missing| ensures Fresh(r[|a.missing| + i], Add(m, i), x, now) {
          if i > 0 {
            assert Fresh(r[|a'.missing| + (i - 1)], Add(Add(m, 1), i - 1), x, now);
            AddAdd(m, i);
          }
        }
      }
    }
    ValidCount(a, x.cfg);
  }

  lemma AddMissingAppends(a: Arq, x: Context, now: int, path: int, s: u32, nackTime: int)
    ensures var r := AddMissing(a, x, now, path, s, nackTime);
      && |r.missing| == |a.missing| + 1 && a.missing <= r.missing && r.missingCount == a.missingCount + 1
      && Fresh(r.missing[|a.missing|], s, x, now)
  {
  }

  lemma ValidCount(a: Arq, cfg: Config)
    requires Valid(a, cfg)
    ensures a.missingCount == |a.missing|
  {
  }

  lemma FwdFalls(m: u32, current: u32)
    ensures Fwd(m, current) == 0 <==> m == current
    ensures m != current ==> Fwd(Add(m, 1), current) == Fwd(m, current) - 1
  {
  }

  lemma AddZero(m: u32)
    ensures Add(m, 0) == m
  {
  }

  lemma AddAdd(m: u32, i: int)
    requires 1 <= i <= SPACE
    ensures Add(Add(m, 1), i - 1) == Add(m, i)
  {
  }

  lemma MarkMissingValid(a: Arq, x: Context, ring: seq<Slot>, shortSeq: bool,
                         now: int, path: int, current: u32, packetTime: int)
    requires Valid(a, x.cfg) && |ring| > 0
    ensures var r := MarkMissing(a, x, ring, shortSeq, now, path, current, packetTime);
      && Valid(r, x.cfg)
      && r == a.(missing := r.missing, missingCount := r.missingCount, missingTotal := r.missingTotal)
  {
    var gap: int := Fwd(a.lastFound, current);
    var last := if HoldsAt(ring, a.lastFound) then ring[a.lastFound % |ring|].held.packetTime else now;
    MarkWalkValid(a, x, now, path, Add(a.lastFound, 1), current, last, Max(packetTime - last, 0) / (gap + 1), 1, |ring|);
  }

  // ---- the pass keeps the budget ----

  /** w is a pass over n entries that together had `credit` NACKs left. */
  predicate SweepOk(tokens: real, w: Sweep, n: nat, credit: nat, cfg: Config) {
    && |w.batch| <= RIST_MAX_NACKS
    && |w.kept| <= n
    && (forall j :: 0 <= j < |w.kept| ==> w.kept[j].nackCount <= cfg.maxRetries)
    && |w.batch| + Credit(w.kept, cfg.maxRetries) <= credit
    && w.recoveries.Valid()
    && (if cfg.nackSeqsPerSec > 0.0
        then w.tokens == tokens - |w.batch| as real && w.tokens >= 0.0
        else w.tokens == tokens)
  }

  lemma SweepEntryOk(tokens: real, w: Sweep, n: nat, credit: nat, e: Entry, x: Context, ring: seq<Slot>, now: int)
    requires |ring| > 0 && SweepOk(tokens, w, n, credit, x.cfg) && e.nackCount <= x.cfg.maxRetries
    requires x.cfg.nackSeqsPerSec >= 0.0
    ensures SweepOk(tokens, SweepEntry(w, e, x, ring, now), n + 1, credit + x.cfg.maxRetries - e.nackCount, x.cfg)
  {
    var r := SweepEntry(w, e, x, ring, now);
    if |r.kept| > |w.kept| { CreditAppend(w.kept, r.kept[|w.kept|], x.cfg.maxRetries); }
  }

  lemma {:induction false} SweepKeepsBudget(w: Sweep, es: seq<Entry>, i: nat, x: Context, ring: seq<Slot>, now: int)
    requires |ring| > 0 && i <= |es|
    requires w.kept == [] && w.batch == [] && w.recoveries.Valid() && w.tokens >= 0.0
    requires x.cfg.nackSeqsPerSec >= 0.0
    requires forall j :: 0 <= j < |es| ==> es[j].nackCount <= x.cfg.maxRetries
    ensures SweepOk(w.tokens, SweepTo(w, es, i, x, ring, now), i, Credit(es[..i], x.cfg.maxRetries), x.cfg)
  {
    hide SweepOk, SweepEntry, Credit;
    if i == 0 {
      NothingSwept(w, es, x.cfg);
    } else {
      SweepKeepsBudget(w, es, i - 1, x, ring, now);
      assert es[..i] == es[..i - 1] + [es[i - 1]];
      CreditAppend(es[..i - 1], es[i - 1], x.cfg.maxRetries);
      SweepEntryOk(w.tokens, SweepTo(w, es, i - 1, x, ring, now), i - 1, Credit(es[..i - 1], x.cfg.maxRetries),
                   es[i - 1], x, ring, now);
    }
  }

  lemma NothingSwept(w: Sweep, es: seq<Entry>, cfg: Config)
    requires w.kept == [] && w.batch == [] && w.recoveries.Valid() && w.tokens >= 0.0
    ensures SweepOk(w.tokens, w, 0, Credit(es[..0], cfg.maxRetries), cfg)
  {
  }

  lemma RefillBounds(tokens: real, since: int, cfg: Config, now: int)
    requires 0.0 <= tokens <= cfg.nackTokenBurst && cfg.nackSeqsPerSec >= 0.0
    ensures 0.0 <= Refill(tokens, since, cfg, now) <= cfg.nackTokenBurst
  {
    if cfg.nackSeqsPerSec > 0.0 && now > since {
      var dt := (now - since) as real / 1000000.0;
      assert dt * cfg.nackSeqsPerSec >= 0.0;
    }
  }

  /** One pass keeps the queue's invariant, and requests at most 200 sequences. */
  lemma ProcessNacksValid(a: Arq, x: Context, ring: seq<Slot>, now: int)
    requires Valid(a, x.cfg) && |ring| > 0
    ensures var (r, batch) := ProcessNacks(a, x, ring, now);
      && Valid(r, x.cfg)
      && |batch| <= RIST_MAX_NACKS
      && |r.missing| <= |a.missing|
      && r.nackArmed == a.nackArmed && r.lastFound == a.lastFound
      && r.nacksSent == a.nacksSent + |batch|
      && (x.cfg.nackSeqsPerSec > 0.0 && a.missing != [] ==>
            && r.tokensTime == now
            && r.tokens == Refill(a.tokens, a.tokensTime, x.cfg, now) - |batch| as real)
      && (x.cfg.nackSeqsPerSec == 0.0 || a.missing == [] ==> r.tokens == a.tokens && r.tokensTime == a.tokensTime)
  {
    if a.missingCount != 0 {
      RefillBounds(a.tokens, a.tokensTime, x.cfg, now);
      var w0 := Sweep([], [], Refill(a.tokens, a.tokensTime, x.cfg, now), a.recoveries, a.abandoned);
      SweepKeepsBudget(w0, a.missing, |a.missing|, x, ring, now);
      assert a.missing[..|a.missing|] == a.missing;
    }
  }

  // ---- which losses a pass keeps, and which it requests ----

  /** Still missing, with retries left, and not too old. */
  predicate Open(e: Entry, x: Context, ring: seq<Slot>, now: int)
    requires |ring| > 0
  {
    && ring[e.seqno % |ring|].Empty?
    && e.nackCount < x.cfg.maxRetries
    && now - e.insertionTime <= Mul110(x.recoveryBuffer)
  }

  function OpenOnes(es: seq<Entry>, x: Context, ring: seq<Slot>, now: int): seq<Entry>
    requires |ring| > 0
  {
    if es == [] then []
    else OpenOnes(Most(es), x, ring, now) + (if Open(Last(es), x, ring, now) then [Last(es)] else [])
  }

  /** The sequences whose next request is due. */
  function DueSeqs(es: seq<Entry>, now: int): seq<u32> {
    if es == [] then [] else DueSeqs(Most(es), now) + (if now >= Last(es).nextNack then [Last(es).seqno] else [])
  }

  /** How many sequences one pass may request: a batch, and no more than whole tokens. */
  function Budget(tokens: real, cfg: Config): nat {
    if cfg.nackSeqsPerSec == 0.0 then RIST_MAX_NACKS
    else if tokens < 1.0 then 0
    else Min(RIST_MAX_NACKS, tokens.Floor)
  }

  function Requested(e: Entry, x: Context, now: int): Entry {
    e.(nextNack := now + x.est.RetryInterval(x.cfg), nackCount := e.nackCount + 1)
  }

  /** The j-th open loss after a pass: requested if it is due and one of the first that
      the budget allows. */
  function Turned(open: seq<Entry>, j: nat, budget: nat, x: Context, now: int): Entry
    requires j < |open|
  {
    if now >= open[j].nextNack && |DueSeqs(open[..j], now)| < budget then Requested(open[j], x, now) else open[j]
  }

  function FirstOf(s: seq<u32>, n: nat): seq<u32> { if |s| <= n then s else s[..n] }

  /** w keeps the open entries, and has asked for the due ones first to last as far as
      the budget goes. */
  predicate Selects(tokens: real, w: Sweep, open: seq<Entry>, x: Context, now: int) {
    var budget := Budget(tokens, x.cfg);
    && |w.kept| == |open|
    && (forall j :: 0 <= j < |open| ==> w.kept[j] == Turned(open, j, budget, x, now))
    && w.batch == FirstOf(DueSeqs(open, now), budget)
    && w.tokens == (if x.cfg.nackSeqsPerSec > 0.0 then tokens - |w.batch| as real else tokens)
  }

  /** One more may be requested exactly while the budget is not spent. */
  lemma BudgetIs(tokens: real, n: nat, cfg: Config)
    requires cfg.nackSeqsPerSec >= 0.0 && n <= Budget(tokens, cfg)
    ensures n < RIST_MAX_NACKS && (cfg.nackSeqsPerSec == 0.0 || tokens - n as real >= 1.0) <==> n < Budget(tokens, cfg)
  {
  }

  lemma SweepEntrySelects(tokens: real, w: Sweep, open: seq<Entry>, e: Entry, x: Context, ring: seq<Slot>, now: int)
    requires |ring| > 0 && x.cfg.nackSeqsPerSec >= 0.0 && Selects(tokens, w, open, x, now)
    ensures Selects(tokens, SweepEntry(w, e, x, ring, now), open + (if Open(e, x, ring, now) then [e] else []), x, now)
  {
    hide Budget, Mul110;
    var budget := Budget(tokens, x.cfg);
    if Open(e, x, ring, now) {
      var more := open + [e];
      assert Most(more) == open && Last(more) == e;
      assert more[..|open|] == open;
      BudgetIs(tokens, |w.batch|, x.cfg);
      forall j | 0 <= j < |open| ensures Turned(more, j, budget, x, now) == Turned(open, j, budget, x, now) {
        assert more[..j] == open[..j];
      }
    } else {
      assert open + [] == open;
    }
  }

  lemma {:induction false} SweepSelects(w: Sweep, es: seq<Entry>, i: nat, x: Context, ring: seq<Slot>, now: int)
    requires |ring| > 0 && i <= |es| && w.kept == [] && w.batch == [] && x.cfg.nackSeqsPerSec >= 0.0
    ensures Selects(w.tokens, SweepTo(w, es, i, x, ring, now), OpenOnes(es[..i], x, ring, now), x, now)
  {
    hide Selects, SweepEntry, Open;
    if i == 0 {
      NothingSelected(w, x, now);
    } else {
      SweepSelects(w, es, i - 1, x, ring, now);
      assert Most(es[..i]) == es[..i - 1] && Last(es[..i]) == es[i - 1];
      SweepEntrySelects(w.tokens, SweepTo(w, es, i - 1, x, ring, now), OpenOnes(es[..i - 1], x, ring, now),
                        es[i - 1], x, ring, now);
    }
  }

  lemma NothingSelected(w: Sweep, x: Context, now: int)
    requires w.kept == [] && w.batch == []
    ensures Selects(w.tokens, w, [], x, now)
  {
  }

  /** A pass keeps exactly the open losses, in queue order, and requests the due ones
      among them from the front, as many as the batch and the tokens allow. */
  lemma PassSelects(a: Arq, x: Context, ring: seq<Slot>, now: int)
    requires Valid(a, x.cfg) && |ring| > 0
    ensures var (r, batch) := ProcessNacks(a, x, ring, now);
      var open, budget := OpenOnes(a.missing, x, ring, now), Budget(Refill(a.tokens, a.tokensTime, x.cfg, now), x.cfg);
      && |r.missing| == |open|
      && (forall j :: 0 <= j < |open| ==> r.missing[j] == Turned(open, j, budget, x, now))
      && batch == FirstOf(DueSeqs(open, now), budget)
  {
    if a.missingCount != 0 {
      var w0 := Sweep([], [], Refill(a.tokens, a.tokensTime, x.cfg, now), a.recoveries, a.abandoned);
      SweepSelects(w0, a.missing, |a.missing|, x, ring, now);
      assert a.missing[..|a.missing|] == a.missing;
    }
  }

  // ---- how a pass counts what it drops ----

  /** The loss has arrived. */
  predicate Found(e: Entry, ring: seq<Slot>)
    requires |ring| > 0
  {
    ring[e.seqno % |ring|].Filled? && ring[e.seqno % |ring|].held.seqno == e.seqno
  }

  /** The loss is given up: nothing is in its slot, and it is out of retries or too old. */
  predicate GivenUp(e: Entry, x: Context, ring: seq<Slot>, now: int)
    requires |ring| > 0
  {
    ring[e.seqno % |ring|].Empty? && !Open(e, x, ring, now)
  }

  /** The losses found after exactly n requests. */
  function FoundAfter(es: seq<Entry>, ring: seq<Slot>, n: nat): nat
    requires |ring| > 0
  {
    if es == [] then 0
    else FoundAfter(Most(es), ring, n) + (if Found(Last(es), ring) && Last(es).nackCount == n then 1 else 0)
  }

  /** The losses found after more than n requests. */
  function FoundBeyond(es: seq<Entry>, ring: seq<Slot>, n: nat): nat
    requires |ring| > 0
  {
    if es == [] then 0
    else FoundBeyond(Most(es), ring, n) + (if Found(Last(es), ring) && Last(es).nackCount > n then 1 else 0)
  }

  function AllGivenUp(es: seq<Entry>, x: Context, ring: seq<Slot>, now: int): nat
    requires |ring| > 0
  {
    if es == [] then 0
    else AllGivenUp(Most(es), x, ring, now) + (if GivenUp(Last(es), x, ring, now) then 1 else 0)
  }

  /** The counts after a pass over es. */
  predicate Tallied(w: Sweep, r: Sweep, es: seq<Entry>, x: Context, ring: seq<Slot>, now: int)
    requires |ring| > 0
  {
    && r.recoveries == Recoveries(
         w.recoveries.total + FoundBeyond(es, ring, 0), w.recoveries.one + FoundAfter(es, ring, 1),
         w.recoveries.two + FoundAfter(es, ring, 2), w.recoveries.three + FoundAfter(es, ring, 3),
         w.recoveries.four + FoundAfter(es, ring, 4), w.recoveries.more + FoundBeyond(es, ring, 4))
    && r.abandoned == w.abandoned + AllGivenUp(es, x, ring, now)
  }

  lemma SweepEntryTallies(w: Sweep, r: Sweep, es: seq<Entry>, e: Entry, x: Context, ring: seq<Slot>, now: int)
    requires |ring| > 0 && Tallied(w, r, es, x, ring, now)
    ensures Tallied(w, SweepEntry(r, e, x, ring, now), es + [e], x, ring, now)
  {
    hide Mul110;
    assert Most(es + [e]) == es && Last(es + [e]) == e;
  }

  lemma {:induction false} SweepTallies(w: Sweep, es: seq<Entry>, i: nat, x: Context, ring: seq<Slot>, now: int)
    requires |ring| > 0 && i <= |es|
    ensures Tallied(w, SweepTo(w, es, i, x, ring, now), es[..i], x, ring, now)
    decreases i
  {
    hide SweepEntry, GivenUp, Found;
    if i > 0 {
      hide Tallied;
      SweepTallies(w, es, i - 1, x, ring, now);
      assert es[..i] == es[..i - 1] + [es[i - 1]];
      SweepEntryTallies(w, SweepTo(w, es, i - 1, x, ring, now), es[..i - 1], es[i - 1], x, ring, now);
    }
  }

  /** Every loss a pass drops is counted once: as recovered, by the requests it took, if it
      arrived after at least one; as abandoned if it was given up. */
  lemma PassTallies(a: Arq, x: Context, ring: seq<Slot>, now: int)
    requires Valid(a, x.cfg) && |ring| > 0
    ensures var r := ProcessNacks(a, x, ring, now).0;
      && r.recoveries == Recoveries(
           a.recoveries.total + FoundBeyond(a.missing, ring, 0), a.recoveries.one + FoundAfter(a.missing, ring, 1),
           a.recoveries.two + FoundAfter(a.missing, ring, 2), a.recoveries.three + FoundAfter(a.missing, ring, 3),
           a.recoveries.four + FoundAfter(a.missing, ring, 4), a.recoveries.more + FoundBeyond(a.missing, ring, 4))
      && r.abandoned == a.abandoned + AllGivenUp(a.missing, x, ring, now)
  {
    hide SweepEntry, GivenUp, Found;
    if a.missingCount != 0 {
      var w0 := Sweep([], [], Refill(a.tokens, a.tokensTime, x.cfg, now), a.recoveries, a.abandoned);
      SweepTallies(w0, a.missing, |a.missing|, x, ring, now);
      assert a.missing[..|a.missing|] == a.missing;
    }
  }

  // ---- the return-channel rate ----

  /** Tokens the bucket would hold if refilled at t. */
  function Allowance(a: Arq, cfg: Config, t: int): real {
    Refill(a.tokens, a.tokensTime, cfg, t)
  }

  function Rate(cfg: Config, dt: int): real { dt as real / 1000000.0 * cfg.nackSeqsPerSec }

  lemma RateAdds(cfg: Config, a: int, b: int)
    ensures Rate(cfg, a + b) == Rate(cfg, a) + Rate(cfg, b)
  {
    var x, y, z := a as real / 1000000.0, b as real / 1000000.0, (a + b) as real / 1000000.0;
    assert z == x + y;
    assert z * cfg.nackSeqsPerSec == x * cfg.nackSeqsPerSec + y * cfg.nackSeqsPerSec;
  }

  lemma RateMonotone(cfg: Config, a: int)
    requires cfg.nackSeqsPerSec >= 0.0 && a >= 0
    ensures Rate(cfg, a) >= 0.0
  {
    var x := a as real / 1000000.0;
    assert x >= 0.0;
    assert x * cfg.nackSeqsPerSec >= 0.0;
  }

  /** Waiting grows the allowance by at most the configured rate. */
  lemma AllowanceGrows(a: Arq, cfg: Config, t: int, u: int)
    requires Valid(a, cfg) && cfg.nackSeqsPerSec > 0.0 && a.tokensTime <= t <= u
    ensures Allowance(a, cfg, u) <= Allowance(a, cfg, t) + Rate(cfg, u - t)
  {
    RateMonotone(cfg, u - t);
    RateMonotone(cfg, t - a.tokensTime);
    RateAdds(cfg, t - a.tokensTime, u - t);
    assert (t - a.tokensTime) + (u - t) == u - a.tokensTime;
    assert Rate(cfg, 0) == 0.0;
  }

  /** A pass spends exactly what it requests out of the allowance. */
  lemma PassSpendsAllowance(a: Arq, x: Context, ring: seq<Slot>, now: int)
    requires Valid(a, x.cfg) && |ring| > 0 && x.cfg.nackSeqsPerSec > 0.0 && a.tokensTime <= now
    ensures var (r, batch) := ProcessNacks(a, x, ring, now);
      && Allowance(r, x.cfg, now) == Allowance(a, x.cfg, now) - |batch| as real
      && r.tokensTime <= now
  {
    ProcessNacksValid(a, x, ring, now);
  }
}
