/** The receiver's ring and cursor as the source writes them: an array updated in
    place, with loops, each method proved against PlayoutBuffer. */
module PlayoutRing {
  import opened Serial
  import opened FlowTypes
  import opened PlayoutBuffer

  class Ring {
    const slots: array<Slot>
    var deliverNext: u32
    var highest: u32
    var pendingDiscontinuity: bool
    var events: seq<Deliver>
    var received: nat
    var overwritten: nat
    var delivered: nat
    var lost: nat
    var discontinuities: nat

    function Abs(): Buffer
      reads this, slots
    {
      Buffer(slots[..], deliverNext, highest, pendingDiscontinuity, events,
             received, overwritten, delivered, lost, discontinuities)
    }

    ghost predicate Valid()
      reads this, slots
    {
      Abs().Valid()
    }

    constructor (size: int)
      requires RingSize(size)
      ensures Valid() && fresh(slots)
      ensures Abs() == Buffer(seq(size, i => Empty), 0, 0, false, [], 0, 0, 0, 0, 0)
    {
      slots := new Slot[size](_ => Empty);
      deliverNext, highest, pendingDiscontinuity, events := 0, 0, false, [];
      received, overwritten, delivered, lost, discontinuities := 0, 0, 0, 0, 0;
      new;
      assert slots[..] == seq(size, i => Empty);
    }

    /** Forget everything buffered. */
    method Clear()
      requires Valid()
      modifies this, slots
      ensures Valid() && Abs() == old(Abs()).(ring := seq(slots.Length, i => Empty), pending := false)
    {
      for i := 0 to slots.Length
        invariant forall j :: 0 <= j < i ==> slots[j] == Empty
        invariant Abs() == old(Abs()).(ring := slots[..])
      {
        slots[i] := Empty;
      }
      pendingDiscontinuity := false;
      assert slots[..] == seq(slots.Length, i => Empty);
    }

    /** Anchor the cursor on the first packet of a flow. */
    method Anchor(h: Held)
      requires Valid() && Abs().NothingBuffered()
      modifies this, slots
      ensures Valid()
      ensures Abs() == old(Abs()).(ring := old(slots[..])[h.seqno % slots.Length := Filled(h)],
                                   deliverNext := h.seqno, highest := h.seqno, received := old(received) + 1)
    {
      slots[h.seqno % slots.Length] := Filled(h);
      highest, deliverNext := h.seqno, h.seqno;
      received := received + 1;
    }

    method Put(h: Held)
      requires Valid() && !Less(h.seqno, deliverNext)
      modifies this, slots
      ensures Valid() && Abs() == Insert(old(Abs()), h)
    {
      InsertValid(Abs(), h);
      var i := h.seqno % slots.Length;
      if slots[i].Filled? {
        overwritten := overwritten + 1;
      }
      slots[i] := Filled(h);
      received := received + 1;
      if Less(highest, h.seqno) {
        highest := h.seqno;
      }
    }

    method EmitDeliver()
      requires Valid() && Abs().Holds(deliverNext)
      modifies this, slots
      ensures Valid() && Abs() == Emit(old(Abs()))
    {
      EmitValid(Abs());
      var i := deliverNext % slots.Length;
      events := events + [ToEvent(slots[i].held, pendingDiscontinuity)];
      pendingDiscontinuity := false;
      delivered := delivered + 1;
      slots[i] := Empty;
      deliverNext := Add(deliverNext, 1);
    }

    method SkipTo(target: u32)
      requires Valid() && 1 <= Fwd(deliverNext, target) <= Abs().Ahead()
      modifies this, slots
      ensures Valid() && Abs() == Skip(old(Abs()), Fwd(old(deliverNext), target))
    {
      ghost var was := slots[..];
      var skipped := Fwd(deliverNext, target);
      SkipValid(Abs(), skipped);
      ClearSlots(target);
      deliverNext := target;
      pendingDiscontinuity := true;
      lost := lost + skipped;
      discontinuities := discontinuities + 1;
    }

    /** Empty the slots of deliverNext up to but excluding target. */
    method ClearSlots(target: u32)
      requires slots.Length > 0
      modifies slots
      ensures slots[..] == ClearSpan(old(slots[..]), deliverNext, Fwd(deliverNext, target))
    {
      var n: u32 := deliverNext;
      while n != target
        invariant 0 <= n < 0x1_0000_0000
        invariant ClearSpan(slots[..], n, Fwd(n, target)) == ClearSpan(old(slots[..]), deliverNext, Fwd(deliverNext, target))
        decreases Fwd(n, target)
      {
        ghost var before := slots[..];
        if slots[n % slots.Length].Filled? {
          slots[n % slots.Length] := Empty;
        }
        assert slots[..] == before[n % slots.Length := Empty];
        n := Add(n, 1);
      }
    }

    /** The offset of the first packet buffered ahead of the cursor. */
    method FindNext(limit: nat) returns (k: nat)
      requires Valid() && limit <= SPACE
      ensures k == Find(Abs(), 1, limit)
    {
      k := 1;
      while k <= limit
        invariant 1 <= k <= limit + 1
        invariant Find(Abs(), k, limit) == Find(Abs(), 1, limit)
      {
        var n := Add(deliverNext, k);
        var s := slots[n % slots.Length];
        if s.Filled? && s.held.seqno == n {
          return;
        }
        k := k + 1;
      }
    }

    /** A hole at the cursor: stop until the next packet is due, or skip to it. */
    method PassHole(now: int) returns (stop: bool, wake: Wake)
      requires Valid() && !Abs().Holds(deliverNext)
      modifies this, slots
      ensures Valid()
      ensures stop ==> (Abs(), wake) == Drain(old(Abs()), now)
      ensures !stop ==> Drain(Abs(), now) == Drain(old(Abs()), now) && Abs().Ahead() < old(Abs().Ahead())
    {
      hide Drain, Skip, Find, Fwd, Add, Distance;
      DrainUnfold(Abs(), now);
      var dist := Distance(deliverNext, highest);
      if dist <= 0 {
        return true, Idle;
      }
      var limit := Min(dist, slots.Length);
      var k := FindNext(limit);
      if k > limit {
        if dist > slots.Length {
          SkipValid(Abs(), slots.Length);
          FwdAdd(deliverNext, slots.Length);
          SkipTo(Add(deliverNext, slots.Length));
          return false, Idle;
        }
        return true, Idle;
      }
      var due := slots[Add(deliverNext, k) % slots.Length].held.outputTime;
      if now < due {
        return true, WakeAt(due);
      }
      SkipValid(Abs(), k);
      FwdAdd(deliverNext, k);
      SkipTo(Add(deliverNext, k));
      return false, Idle;
    }

    /** Deliver everything due; say when to wake next. */
    method DeliverDue(now: int) returns (wake: Wake)
      requires Valid()
      modifies this, slots
      ensures Valid() && (Abs(), wake) == Drain(old(Abs()), now)
    {
      hide Drain, Emit;
      ghost var done := Drain(Abs(), now);
      while true
        invariant Valid() && Drain(Abs(), now) == done
        decreases Abs().Ahead() + 1
      {
        var s := slots[deliverNext % slots.Length];
        if s.Filled? && s.held.seqno == deliverNext {
          DrainUnfold(Abs(), now);
          if now < s.held.outputTime {
            return WakeAt(s.held.outputTime);
          }
          EmitValid(Abs());
          EmitDeliver();
        } else {
          var stop;
          stop, wake := PassHole(now);
          if stop {
            return;
          }
        }
      }
    }
  }
}
