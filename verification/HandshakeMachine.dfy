/** The reassembler as the source keeps it (internal/dtls/handshake.go): a map of
    partial messages, each with its own body and per-byte coverage filled in place. */
module HandshakeMachine {
  import opened FlowTypes
  import opened Serial
  import opened Handshake

  class PartialMessage {
    const typ: Byte
    const epoch: u16
    const body: array<Byte>
    const received: array<bool>
    var have: nat

    ghost function Abs(): Partial
      reads this, body, received
    {
      Partial(typ, body[..], received[..], have, epoch)
    }

    constructor (f: Fragment)
      ensures fresh(body) && fresh(received) && body.Length == received.Length == f.totalLen
      ensures Abs() == Fresh(f)
    {
      typ, epoch, have := f.typ, f.epoch, 0;
      body := new Byte[f.totalLen](_ => 0);
      received := new bool[f.totalLen](_ => false);
      new;
      assert body[..] == seq(f.totalLen, _ => 0) && received[..] == seq(f.totalLen, _ => false);
    }

    method CopyIn(off: nat, frag: Bytes)
      requires off + |frag| <= body.Length
      modifies body
      ensures body[..] == Overlay(old(body[..]), off, frag)
      ensures received[..] == old(received[..])
    {
      for i := 0 to |frag|
        invariant forall k :: 0 <= k < body.Length ==> body[k] == if off <= k < off + i then frag[k - off] else old(body[k])
        invariant received[..] == old(received[..])
      {
        body[off + i] := frag[i];
      }
      assert body[..] == Overlay(old(body[..]), off, frag);
    }

    /** Copy a fragment into place and count the bytes it newly covers. */
    method Lay(f: Fragment)
      requires f.InBounds() && body.Length == received.Length == f.totalLen
      modifies this, body, received
      ensures Abs() == Laid(old(Abs()), f)
    {
      var (off, n) := (f.fragOff, |f.frag|);
      CopyIn(off, f.frag);
      for i := off to off + n
        invariant body[..] == Overlay(old(body[..]), off, f.frag)
        invariant (received[..], have) == Mark(old(received[..]), old(have), off, i - off)
      {
        if !received[i] {
          received[i] := true;
          have := have + 1;
        }
      }
    }
  }

  class ReassemblerMachine {
    var next: u16
    var pending: map<u16, PartialMessage>

    ghost function Bodies(): set<array<Byte>>
      reads this
    {
      set s | s in pending :: pending[s].body
    }

    ghost function Coverage(): set<array<bool>>
      reads this
    {
      set s | s in pending :: pending[s].received
    }

    /** Each partial message has storage of its own. */
    ghost predicate Valid()
      reads this
    {
      && (forall s :: s in pending ==> pending[s].body.Length == pending[s].received.Length)
      && forall s, t :: s in pending && t in pending && s != t ==>
           pending[s] != pending[t] && pending[s].body != pending[t].body && pending[s].received != pending[t].received
    }

    ghost function Abs(): (r: Reassembler)
      requires Valid()
      reads this, pending.Values, Bodies(), Coverage()
      ensures Shaped(r)
    {
      Reassembler(next, map s | s in pending :: pending[s].Abs())
    }

    constructor ()
      ensures Valid() && pending == map[] && Abs() == Reassembler(0, map[])
    {
      next, pending := 0, map[];
    }

    /** The partial message for a fragment, made if there is none. */
    method Slot(f: Fragment) returns (p: PartialMessage)
      requires Valid()
      modifies this
      ensures Valid() && next == old(next) && f.seqno in pending && pending[f.seqno] == p
      ensures forall s :: s in pending ==> (s in old(pending) && pending[s] == old(pending[s])) || Made(pending[s])
      ensures f.seqno in old(pending) ==> pending == old(pending)
      ensures Abs().pending == old(Abs()).pending[f.seqno := Target(old(Abs()), f)]
    {
      hide PartialMessage.Abs, Fresh, Shaped;
      ghost var held := Abs().pending;
      if f.seqno in pending {
        p := pending[f.seqno];
        assert held == held[f.seqno := held[f.seqno]];
      } else {
        p := NewSlot(f);
      }
    }

    method NewSlot(f: Fragment) returns (p: PartialMessage)
      requires Valid() && f.seqno !in pending
      modifies this
      ensures Valid() && next == old(next) && pending == old(pending)[f.seqno := p] && Made(p)
      ensures Abs().pending == old(Abs()).pending[f.seqno := Fresh(f)]
    {
      hide PartialMessage.Abs, Fresh, Shaped;
      ghost var held := Abs().pending;
      p := new PartialMessage(f);
      pending := pending[f.seqno := p];
      assert Abs().pending == held[f.seqno := Fresh(f)];
    }

    /** New storage. */
    twostate predicate Made(new p: PartialMessage)
    {
      fresh(p) && fresh(p.body) && fresh(p.received)
    }

    /** Lay a fragment into one partial message; the others keep what they have. */
    method LayIn(p: PartialMessage, f: Fragment)
      requires Valid() && f.InBounds() && f.seqno in pending && pending[f.seqno] == p && p.body.Length == f.totalLen
      modifies p, p.body, p.received
      ensures Valid() && Abs() == old(Abs()).(pending := old(Abs()).pending[f.seqno := Laid(old(p.Abs()), f)])
    {
      hide PartialMessage.Abs, Laid, Shaped;
      ghost var (held, part) := (Abs().pending, p.Abs());
      Shape(p);
      p.Lay(f);
      assert Abs().pending == held[f.seqno := Laid(part, f)];
    }

    method Accept(f: Fragment) returns (ok: bool)
      requires Valid() && f.InBounds()
      modifies this, pending.Values, Bodies(), Coverage()
      ensures Valid() && (Abs(), ok) == Handshake.Accept(old(Abs()), f)
    {
      hide PartialMessage.Abs, Fresh, Laid, Handshake.Accept, Target, Consistent, Shaped;
      ghost var was := Abs();
      AcceptIs(was, f);
      if f.seqno < next || f.seqno - next >= 8 {
        return true;
      }
      var p := Slot(f);
      assert Target(was, f) == p.Abs() by { assert Abs().pending[f.seqno] == p.Abs(); }
      Shape(p);
      if p.typ != f.typ || p.body.Length != f.totalLen {
        return false;
      }
      LayIn(p, f);
      return true;
    }

    method NextMessage() returns (h: Option<Handed>)
      requires Valid()
      modifies this
      ensures Valid() && (Abs(), h) == Handshake.NextMessage(old(Abs()))
    {
      hide PartialMessage.Abs;
      if next !in pending {
        return None;
      }
      var (p, n) := (pending[next], next);
      Shape(p);
      if p.have != p.body.Length {
        return None;
      }
      ghost var held := Abs().pending;
      h := Some(Handed(next, Message(p.typ, p.body[..], p.epoch)));
      next := (next + 1) % 0x1_0000;
      pending := pending - {n};
      assert Abs().pending == held - {n};
    }
  }

  /** Taking in a fragment, told in the order the code does it. */
  lemma AcceptIs(r: Reassembler, f: Fragment)
    requires f.InBounds() && Shaped(r)
    ensures var (t, k) := (Target(r, f), r.pending[f.seqno := Target(r, f)]);
      && (f.seqno < r.next || f.seqno - r.next >= 8 ==> Handshake.Accept(r, f) == (r, true))
      && (r.next <= f.seqno < r.next + 8 && (t.typ != f.typ || |t.body| != f.totalLen) ==>
            k == r.pending && Handshake.Accept(r, f) == (r, false))
      && (r.next <= f.seqno < r.next + 8 && t.typ == f.typ && |t.body| == |t.received| == f.totalLen ==>
            Handshake.Accept(r, f) == (r.(pending := k[f.seqno := Laid(t, f)]), true))
  {
    hide Laid;
    var (t, k) := (Target(r, f), r.pending[f.seqno := Target(r, f)]);
    if |t.body| == |t.received| == f.totalLen {
      assert k[f.seqno := Laid(t, f)] == r.pending[f.seqno := Laid(t, f)];
    }
    if f.seqno in r.pending { assert k == r.pending; }
  }

  lemma Shape(p: PartialMessage)
    ensures var a := p.Abs();
      a.typ == p.typ && a.epoch == p.epoch && a.body == p.body[..] && a.have == p.have && |a.received| == p.received.Length
  {
  }
}
