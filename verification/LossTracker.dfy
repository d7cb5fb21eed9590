/** Gap detection and the NACK pass as the source writes them, over the linked
    missing queue, each method proved against Recovery. */
module LossTracker {
  import opened Serial
  import opened FlowTypes
  import opened PlayoutBuffer
  import opened Recovery
  import opened MissingQueue

  class Tracker {
    const queue: Fifo
    var lastFound: u32
    var nackArmed: bool
    var tokens: real
    var tokensTime: int
    var missingTotal: nat
    var nacksSent: nat
    var recoveries: Recoveries
    var abandoned: nat

    ghost predicate Valid()
      reads this, queue, queue.Repr
    {
      queue.Valid()
    }

    ghost function Abs(): Arq
      reads this, queue, queue.Repr
      requires Valid()
    {
      Arq(lastFound, queue.Contents(), queue.count, nackArmed, tokens, tokensTime,
          missingTotal, nacksSent, recoveries, abandoned)
    }

    constructor (cfg: Config)
      ensures Valid() && fresh(queue) && queue.Repr == {} && Abs() == NewArq(cfg)
    {
      queue := new Fifo();
      lastFound, nackArmed, tokens, tokensTime := 0, false, cfg.nackTokenBurst, 0;
      missingTotal, nacksSent, recoveries, abandoned := 0, 0, Recoveries(0, 0, 0, 0, 0, 0), 0;
    }

    method Clear()
      requires Valid()
      modifies this, queue, queue.Repr
      ensures Valid() && fresh(queue.Repr - old(queue.Repr))
      ensures Abs() == old(Abs()).(missing := [], missingCount := 0, nackArmed := false)
    {
      queue.Clear();
      nackArmed := false;
    }

    method Found(s: u32)
      requires Valid()
      modifies this
      ensures Valid() && Abs() == old(Abs()).(lastFound := s)
    {
      hide Fifo.Valid, Fifo.Contents;
      lastFound := s;
    }

    method SetArmed(armed: bool)
      requires Valid()
      modifies this
      ensures Valid() && Abs() == old(Abs()).(nackArmed := armed)
    {
      hide Fifo.Valid, Fifo.Contents;
      nackArmed := armed;
    }

    /** Entries are queued and no timer is armed for them. */
    predicate WantsTimer()
      reads this, queue, queue.Repr
      requires Valid()
      ensures WantsTimer() <==> Abs().missingCount != 0 && !Abs().nackArmed
    {
      queue.count != 0 && !nackArmed
    }

    method Add(x: Context, now: int, path: int, s: u32, nackTime: int)
      requires Valid()
      modifies this, queue, queue.Repr
      ensures Valid() && fresh(queue.Repr - old(queue.Repr))
      ensures Abs() == AddMissing(old(Abs()), x, now, path, s, nackTime)
    {
      hide Fifo.Valid, Fifo.Contents, TruncDiv, ClampRtt;
      var insertion := nackTime;
      if insertion > now {
        insertion := now;
      } else if insertion < now - x.recoveryBuffer {
        insertion := now;
      }
      var firstRtt := TruncDiv(x.est.Clamped(x.cfg), 2);
      if firstRtt < x.cfg.reorderBuffer {
        firstRtt := x.cfg.reorderBuffer;
      }
      queue.Append(Entry(s, path, 0, insertion, now + firstRtt));
      missingTotal := missingTotal + 1;
    }

    /** Queue every sequence between the last one found and `current`. */
    method Mark(x: Context, ring: array<Slot>, shortSeq: bool, now: int, path: int, current: u32, packetTime: int)
      requires Valid() && ring.Length > 0
      modifies this, queue, queue.Repr
      ensures Valid() && fresh(queue.Repr - old(queue.Repr))
      ensures Abs() == MarkMissing(old(Abs()), x, old(ring[..]), shortSeq, now, path, current, packetTime)
    {
      hide Fifo.Valid, Fifo.Contents, MarkWalk;
      if x.cfg.noRecovery {
        return;
      }
      var gap: int := Fwd(lastFound, current);
      var maxGap := if shortSeq then MAX_GAP_16 else ring.Length / 2;
      if gap > maxGap || gap == 0 {
        return;
      }
      var last := now;
      var anchor := ring[lastFound % ring.Length];
      if anchor.Filled? && anchor.held.seqno == lastFound {
        last := anchor.held.packetTime;
      }
      var delta := packetTime - last;
      if delta < 0 {
        delta := 0;
      }
      Walk(x, now, path, current, last, delta / (gap + 1), ring.Length);
    }

    method Walk(x: Context, now: int, path: int, current: u32, last: int, interpacket: int, n: nat)
      requires Valid()
      modifies this, queue, queue.Repr
      ensures Valid() && fresh(queue.Repr - old(queue.Repr))
      ensures Abs() == MarkWalk(old(Abs()), x, now, path, Serial.Add(old(lastFound), 1), current, last, interpacket, 1, n)
    {
      hide Fifo.Valid, Fifo.Contents, AddMissing;
      ghost var goal := MarkWalk(Abs(), x, now, path, Serial.Add(lastFound, 1), current, last, interpacket, 1, n);
      var nackTime, count := last, 1;
      var m: u32 := Serial.Add(lastFound, 1);
      while m != current
        invariant 0 <= m < 0x1_0000_0000 && count >= 1
        invariant Valid() && fresh(queue.Repr - old(queue.Repr))
        invariant MarkWalk(Abs(), x, now, path, m, current, nackTime, interpacket, count, n) == goal
        decreases Fwd(m, current)
      {
        if queue.count > x.cfg.missingCounterMax {
          return;
        }
        nackTime := nackTime + interpacket;
        Add(x, now, path, m, nackTime);
        count := count + 1;
        if count == n {
          return;
        }
        m := Serial.Add(m, 1);
      }
    }

    /** Let the token bucket fill for the time since it was last looked at. */
    method TopUp(cfg: Config, now: int)
      modifies this`tokens, this`tokensTime
      ensures tokens == Refill(old(tokens), old(tokensTime), cfg, now)
      ensures tokensTime == if cfg.nackSeqsPerSec > 0.0 then now else old(tokensTime)
    {
      if cfg.nackSeqsPerSec > 0.0 {
        var elapsed := now - tokensTime;
        if elapsed > 0 {
          tokens := tokens + elapsed as real / 1000000.0 * cfg.nackSeqsPerSec;
          if tokens > cfg.nackTokenBurst {
            tokens := cfg.nackTokenBurst;
          }
        }
        tokensTime := now;
      }
    }

    /** One NACK pass; the sequences to request. */
    method Process(x: Context, ring: array<Slot>, now: int) returns (batch: seq<u32>)
      requires Valid() && ring.Length > 0
      modifies this, queue, queue.Repr
      ensures Valid() && fresh(queue.Repr - old(queue.Repr))
      ensures (Abs(), batch) == ProcessNacks(old(Abs()), x, old(ring[..]), now)
    {
      hide Fifo.Valid, Fifo.Contents, SweepTo, Refill;
      if queue.count == 0 {
        return [];
      }
      TopUp(x.cfg, now);
      batch, tokens, recoveries, abandoned := queue.Pass(x, ring, now, tokens, recoveries, abandoned);
      nacksSent := nacksSent + |batch|;
    }
  }
}
