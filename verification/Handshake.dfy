/** DTLS handshake fragmentation and reassembly (internal/dtls/handshake.go; sections
    4.2.2 to 4.2.4 of RFC 6347). However genuine fragments are cut, reordered,
    repeated or lost, the messages handed over are exactly those sent, in order, each
    once, and each as soon as the fragments taken in cover it. */
module Handshake {
  import opened FlowTypes
  import opened Serial

  const MAX_BODY := 0x1_0000
  const MAX_PENDING := 8

  datatype Message = Message(typ: Byte, body: Bytes, epoch: u16)

  datatype Fragment = Fragment(typ: Byte, totalLen: nat, seqno: u16, fragOff: nat, frag: Bytes, epoch: u16) {
    predicate InBounds() { fragOff + |frag| <= totalLen }
  }

  // ---- the wire ----

  function Big24(n: nat): Bytes { [n / 0x1_0000 % 256, n / 256 % 256, n % 256] }

  function Big16(n: nat): Bytes { [n / 256 % 256, n % 256] }

  function Int(b: Byte): int { b }

  function Read24(b: Bytes, i: nat): nat
    requires i + 3 <= |b|
  {
    0x1_0000 * Int(b[i]) + 256 * Int(b[i + 1]) + Int(b[i + 2])
  }

  function Read16(b: Bytes, i: nat): u16
    requires i + 2 <= |b|
  {
    256 * Int(b[i]) + Int(b[i + 1])
  }

  function Encode(f: Fragment): Bytes {
    [f.typ] + Big24(f.totalLen) + Big16(f.seqno) + Big24(f.fragOff) + Big24(|f.frag|) + f.frag
  }

  datatype ParseError = ShortRecord | LengthTooLarge | FragmentTooLong

  datatype Parsed = Parsed(f: Fragment, consumed: nat) | Refused(error: ParseError)

  /** Decode one fragment from the front of b, received under `epoch`. */
  function Parse(b: Bytes, epoch: u16): (r: Parsed)
    ensures r.Parsed? ==> r.f.InBounds() && r.f.totalLen <= MAX_BODY && r.consumed == 12 + |r.f.frag| <= |b|
  {
    if |b| < 12 then Refused(ShortRecord) else
    var (totalLen, fragOff, fragLen) := (Read24(b, 1), Read24(b, 6), Read24(b, 9));
    if totalLen > 0x1_0000 then Refused(LengthTooLarge)
    else if |b| < 12 + fragLen then Refused(ShortRecord)
    else if fragOff + fragLen > totalLen then Refused(FragmentTooLong)
    else Parsed(Fragment(b[0], totalLen, Read16(b, 4), fragOff, b[12..12 + fragLen], epoch), 12 + fragLen)
  }

  lemma Round24(n: nat, b: Bytes, i: nat)
    requires n < 0x100_0000 && i + 3 <= |b| && b[i..i + 3] == Big24(n)
    ensures Read24(b, i) == n
  {
    assert b[i] == b[i..i + 3][0] && b[i + 1] == b[i..i + 3][1] && b[i + 2] == b[i..i + 3][2];
    var a := n / 256;
    assert n / 0x1_0000 == a / 256 && n == 256 * a + n % 256 && a == 256 * (a / 256) + a % 256;
  }

  lemma EncodeSlices(f: Fragment, rest: Bytes)
    ensures var b := Encode(f) + rest;
      && |Encode(f)| == 12 + |f.frag| && b[0] == f.typ && b[1..4] == Big24(f.totalLen) && b[4..6] == Big16(f.seqno)
      && b[6..9] == Big24(f.fragOff) && b[9..12] == Big24(|f.frag|) && b[12..12 + |f.frag|] == f.frag
  {
  }

  /** Parsing inverts encoding, whatever follows in the datagram. */
  lemma WireRoundTrip(f: Fragment, rest: Bytes)
    requires f.InBounds() && f.totalLen <= MAX_BODY
    ensures Parse(Encode(f) + rest, f.epoch) == Parsed(f, |Encode(f)|)
  {
    hide Big24, Big16, Read24, Encode;
    var b := Encode(f) + rest;
    EncodeSlices(f, rest);
    Round24(f.totalLen, b, 1);
    Round24(f.fragOff, b, 6);
    Round24(|f.frag|, b, 9);
    Round16(f.seqno, b, 4);
  }

  lemma Round16(n: u16, b: Bytes, i: nat)
    requires i + 2 <= |b| && b[i..i + 2] == Big16(n)
    ensures Read16(b, i) == n
  {
    assert b[i] == b[i..i + 2][0] && b[i + 1] == b[i..i + 2][1];
  }

  // ---- cutting a message ----

  /** The fragment of m that starts at off and is at most `avail` long. */
  function Piece(m: Message, seqno: u16, off: nat, avail: nat): Fragment
    requires off <= |m.body|
  {
    var end := if off + avail > |m.body| then |m.body| else off + avail;
    Fragment(m.typ, |m.body|, seqno, off, m.body[off..end], m.epoch)
  }

  /** The fragments from off on. */
  function CutFrom(m: Message, seqno: u16, off: nat, avail: nat): seq<Fragment>
    requires off <= |m.body| && avail >= 1
    decreases |m.body| - off
  {
    if off + avail >= |m.body| then [Piece(m, seqno, off, avail)]
    else [Piece(m, seqno, off, avail)] + CutFrom(m, seqno, off + avail, avail)
  }

  function Cut(m: Message, seqno: u16, maxFragment: int): seq<Fragment> {
    CutFrom(m, seqno, 0, if maxFragment - 12 < 1 then 1 else maxFragment - 12)
  }

  function Joined(fs: seq<Fragment>): Bytes {
    if fs == [] then [] else fs[0].frag + Joined(fs[1..])
  }

  lemma {:induction false} CutJoins(m: Message, seqno: u16, off: nat, avail: nat)
    requires off <= |m.body| && avail >= 1
    ensures Joined(CutFrom(m, seqno, off, avail)) == m.body[off..]
    decreases |m.body| - off
  {
    var fs := CutFrom(m, seqno, off, avail);
    if off + avail >= |m.body| {
      assert fs[1..] == [];
    } else {
      CutJoins(m, seqno, off + avail, avail);
      assert fs[1..] == CutFrom(m, seqno, off + avail, avail);
      assert m.body[off..] == m.body[off..off + avail] + m.body[off + avail..];
    }
  }

  /** The pieces are laid end to end and make up the rest of the body; each fits. */
  lemma {:induction false} CutPartitions(m: Message, seqno: u16, off: nat, avail: nat)
    requires off <= |m.body| && avail >= 1
    ensures var fs := CutFrom(m, seqno, off, avail);
      && fs != [] && Joined(fs) == m.body[off..] && fs[0].fragOff == off
      && (forall i :: 0 <= i < |fs| ==> |fs[i].frag| <= avail && OfMessage(fs[i], m, seqno))
      && (forall i :: 0 <= i < |fs| && m.body != [] && off < |m.body| ==> fs[i].frag != [])
      && (forall i :: 0 <= i < |fs| - 1 ==> fs[i + 1].fragOff == fs[i].fragOff + |fs[i].frag|)
    decreases |m.body| - off
  {
    hide OfMessage, Joined;
    var fs := CutFrom(m, seqno, off, avail);
    CutJoins(m, seqno, off, avail);
    PieceOf(m, seqno, off, avail);
    if off + avail < |m.body| {
      CutPartitions(m, seqno, off + avail, avail);
      var rest := CutFrom(m, seqno, off + avail, avail);
      assert forall i :: 1 <= i < |fs| ==> fs[i] == rest[i - 1];
    }
  }

  lemma PieceOf(m: Message, seqno: u16, off: nat, avail: nat)
    requires off <= |m.body|
    ensures OfMessage(Piece(m, seqno, off, avail), m, seqno)
  {
  }

  /** f is a genuine fragment of message m. */
  predicate OfMessage(f: Fragment, m: Message, seqno: u16) {
    && f.typ == m.typ && f.totalLen == |m.body| && f.seqno == seqno && f.epoch == m.epoch
    && f.InBounds() && f.frag == m.body[f.fragOff..f.fragOff + |f.frag|]
  }

  predicate Within(f: Fragment, i: int) { f.fragOff <= i < f.fragOff + |f.frag| }

  /** Every byte lies in some piece. */
  lemma {:induction false} CutCovers(m: Message, seqno: u16, off: nat, avail: nat, i: nat)
    requires off <= i < |m.body| && avail >= 1
    ensures exists k :: 0 <= k < |CutFrom(m, seqno, off, avail)| && Within(CutFrom(m, seqno, off, avail)[k], i)
    decreases |m.body| - off
  {
    var fs := CutFrom(m, seqno, off, avail);
    if i < off + avail {
      assert Within(fs[0], i);
    } else {
      CutCovers(m, seqno, off + avail, avail, i);
      var rest := CutFrom(m, seqno, off + avail, avail);
      var k :| 0 <= k < |rest| && Within(rest[k], i);
      assert fs[k + 1] == rest[k];
    }
  }

  /** Pieces are still to be cut at off. An empty body makes one empty piece. */
  predicate More(m: Message, off: nat) { off < |m.body| || (off == 0 && |m.body| == 0) }

  function Rest(m: Message, seqno: u16, off: nat, avail: nat): seq<Fragment>
    requires avail >= 1
  {
    if More(m, off) then CutFrom(m, seqno, off, avail) else []
  }

  lemma RestStep(m: Message, seqno: u16, off: nat, avail: nat)
    requires avail >= 1 && More(m, off)
    ensures var f := Piece(m, seqno, off, avail);
      Rest(m, seqno, off, avail) == [f] + (if |m.body| == 0 then [] else Rest(m, seqno, off + avail, avail))
  {
  }

  /** fragmentMessage: the wire encodings of the pieces. */
  method FragmentMessage(m: Message, seqno: u16, maxFragment: int) returns (out: seq<Bytes>)
    ensures |out| == |Cut(m, seqno, maxFragment)|
    ensures forall i :: 0 <= i < |out| ==> out[i] == Encode(Cut(m, seqno, maxFragment)[i])
  {
    hide Encode, CutFrom, Rest;
    var avail := maxFragment - 12;
    if avail < 1 {
      avail := 1;
    }
    ghost var all := Cut(m, seqno, maxFragment);
    ghost var done: seq<Fragment> := [];
    out := [];
    var off := 0;
    RestStart(m, seqno, avail);
    while More(m, off)
      invariant 0 <= off && done + Rest(m, seqno, off, avail) == all
      invariant |out| == |done| && forall i :: 0 <= i < |out| ==> out[i] == Encode(done[i])
      decreases |m.body| - off
    {
      RestStep(m, seqno, off, avail);
      ghost var rest := if |m.body| == 0 then [] else Rest(m, seqno, off + avail, avail);
      var end := off + avail;
      if end > |m.body| {
        end := |m.body|;
      }
      var f := Fragment(m.typ, |m.body|, seqno, off, m.body[off..end], m.epoch);
      out := out + [Encode(f)];
      assert done + [f] + rest == done + ([f] + rest);
      done := done + [f];
      if |m.body| == 0 {
        break;
      }
      off := off + avail;
    }
    if !More(m, off) { RestEnd(m, seqno, off, avail); }
    assert done == all;
  }

  lemma RestStart(m: Message, seqno: u16, avail: nat)
    requires avail >= 1
    ensures Rest(m, seqno, 0, avail) == CutFrom(m, seqno, 0, avail)
  {
  }

  lemma RestEnd(m: Message, seqno: u16, off: nat, avail: nat)
    requires avail >= 1 && !More(m, off)
    ensures Rest(m, seqno, off, avail) == []
  {
  }

  // ---- putting it together ----

  datatype Partial = Partial(typ: Byte, body: Bytes, received: seq<bool>, have: nat, epoch: u16)

  datatype Reassembler = Reassembler(next: u16, pending: map<u16, Partial>)

  /** Mark n bytes from off as received, counting the new ones. */
  function Mark(received: seq<bool>, have: nat, off: nat, n: nat): (r: (seq<bool>, nat))
    requires off + n <= |received|
    ensures |r.0| == |received|
    decreases n
  {
    if n == 0 then (received, have) else
    var (r, h) := Mark(received, have, off, n - 1);
    if r[off + n - 1] then (r, h) else (r[off + n - 1 := true], h + 1)
  }

  function Overlay(body: Bytes, off: nat, frag: Bytes): Bytes
    requires off + |frag| <= |body|
  {
    body[..off] + frag + body[off + |frag|..]
  }

  function Fresh(f: Fragment): Partial {
    Partial(f.typ, seq(f.totalLen, _ => 0), seq(f.totalLen, _ => false), 0, f.epoch)
  }

  /** Whether a fragment is looked at: not delivered already, not beyond the window. */
  predicate InRange(r: Reassembler, f: Fragment) { r.next <= f.seqno < r.next + 8 }

  /** The partial message a fragment belongs to, new if need be. */
  function Target(r: Reassembler, f: Fragment): Partial {
    if f.seqno in r.pending then r.pending[f.seqno] else Fresh(f)
  }

  predicate Consistent(p: Partial, f: Fragment) {
    p.typ == f.typ && |p.body| == f.totalLen
  }

  function Laid(p: Partial, f: Fragment): Partial
    requires f.InBounds() && |p.body| == |p.received| == f.totalLen
  {
    var (received, have) := Mark(p.received, p.have, f.fragOff, |f.frag|);
    p.(body := Overlay(p.body, f.fragOff, f.frag), received := received, have := have)
  }

  predicate Shaped(r: Reassembler) {
    forall s :: s in r.pending ==> |r.pending[s].received| == |r.pending[s].body|
  }

  /** Take in one fragment; false if it contradicts what is held. */
  function Accept(r: Reassembler, f: Fragment): (Reassembler, bool)
    requires f.InBounds() && Shaped(r)
  {
    if !InRange(r, f) then (r, true)
    else if !Consistent(Target(r, f), f) then (r, false)
    else (r.(pending := r.pending[f.seqno := Laid(Target(r, f), f)]), true)
  }

  datatype Handed = Handed(seqno: u16, message: Message)

  /** Hand over the next message if it is complete. */
  function NextMessage(r: Reassembler): (Reassembler, Option<Handed>) {
    if r.next !in r.pending then (r, None) else
    var p := r.pending[r.next];
    if p.have != |p.body| then (r, None)
    else (Reassembler((r.next + 1) % 0x1_0000, r.pending - {r.next}), Some(Handed(r.next, Message(p.typ, p.body, p.epoch))))
  }

  // ---- coverage ----

  function Count(received: seq<bool>): nat {
    if received == [] then 0
    else Count(received[..|received| - 1]) + (if received[|received| - 1] then 1 else 0)
  }

  lemma {:induction false} CountSet(received: seq<bool>, i: nat)
    requires i < |received| && !received[i]
    ensures Count(received[i := true]) == Count(received) + 1
  {
    var n := |received| - 1;
    if i < n {
      assert received[i := true][..n] == received[..n][i := true];
      CountSet(received[..n], i);
    } else {
      assert received[i := true][..n] == received[..n];
    }
  }

  /** The count is the length exactly when every byte is there. */
  lemma {:induction false} CountFull(received: seq<bool>)
    ensures Count(received) <= |received|
    ensures Count(received) == |received| <==> forall i :: 0 <= i < |received| ==> received[i]
  {
    if received != [] { CountFull(received[..|received| - 1]); }
  }

  lemma {:induction false} CountNone(n: nat)
    ensures Count(seq(n, _ => false)) == 0
  {
    if n > 0 {
      assert seq(n, _ => false)[..n - 1] == seq(n - 1, _ => false);
      CountNone(n - 1);
    }
  }

  /** Marking covers exactly the range, and keeps the count exact. */
  lemma {:induction false} MarkIs(received: seq<bool>, have: nat, off: nat, n: nat)
    requires off + n <= |received| && have == Count(received)
    ensures var (r, h) := Mark(received, have, off, n);
      && |r| == |received| && h == Count(r)
      && forall i :: 0 <= i < |r| ==> (r[i] <==> received[i] || off <= i < off + n)
    decreases n
  {
    if n > 0 {
      MarkIs(received, have, off, n - 1);
      var (r, h) := Mark(received, have, off, n - 1);
      if !r[off + n - 1] { CountSet(r, off + n - 1); }
    }
  }

  // ---- whole runs ----

  /** The sender's messages and the fragments taken in so far. */
  datatype Link = Link(sent: seq<Message>, r: Reassembler, taken: seq<Fragment>, handed: seq<Handed>)

  predicate Heard(taken: seq<Fragment>, s: u16) {
    exists k :: 0 <= k < |taken| && taken[k].seqno == s
  }

  /** Byte i of message s is in a fragment taken in. */
  predicate Covered(taken: seq<Fragment>, s: u16, i: int) {
    exists k :: 0 <= k < |taken| && taken[k].seqno == s && Within(taken[k], i)
  }

  /** A fragment of message s was taken in, and together they cover it. */
  predicate Arrived(l: Link, s: u16)
    requires s < |l.sent|
  {
    Heard(l.taken, s) && forall i :: 0 <= i < |l.sent[s].body| ==> Covered(l.taken, s, i)
  }

  predicate PartialOk(l: Link, s: u16)
    requires s in l.r.pending && s < |l.sent|
  {
    var (p, m) := (l.r.pending[s], l.sent[s]);
    && p.typ == m.typ && p.epoch == m.epoch && |p.body| == |p.received| == |m.body|
    && p.have == Count(p.received)
    && (forall i :: 0 <= i < |p.body| ==> (p.received[i] <==> Covered(l.taken, s, i)))
    && (forall i :: 0 <= i < |p.body| && p.received[i] ==> p.body[i] == m.body[i])
  }

  /** Up to the cursor everything was handed over, in order; from it on, exactly the
      messages heard of are pending, with exactly the bytes that arrived. */
  predicate Assembling(l: Link) {
    && |l.sent| < 0x1_0000 && l.r.next <= |l.sent|
    && |l.handed| == l.r.next
    && (forall j :: 0 <= j < |l.handed| ==> l.handed[j] == Handed(j, l.sent[j]))
    && (forall s :: s in l.r.pending ==> l.r.next <= s < l.r.next + 8 && s < |l.sent| && Heard(l.taken, s) && PartialOk(l, s))
    && (forall s: u16 :: s >= l.r.next && Heard(l.taken, s) ==> s in l.r.pending)
  }

  datatype Op = Take(f: Fragment) | Poll

  predicate Genuine(sent: seq<Message>, op: Op) {
    op.Take? ==> op.f.seqno < |sent| && OfMessage(op.f, sent[op.f.seqno], op.f.seqno)
  }

  /** A fragment of one of the eight messages after those handed over. */
  predicate Wanted(l: Link, f: Fragment) { |l.handed| <= f.seqno < |l.handed| + 8 }

  /** The reassembler's step, and what it must then have taken in: every fragment wanted. */
  function Step(l: Link, op: Op): Link
    requires Shaped(l.r) && Genuine(l.sent, op)
  {
    match op
    case Take(f) => l.(r := Accept(l.r, f).0, taken := if Wanted(l, f) then l.taken + [f] else l.taken)
    case Poll =>
      var (r, h) := NextMessage(l.r);
      l.(r := r, handed := if h.Some? then l.handed + [h.value] else l.handed)
  }

  lemma AssemblingShaped(l: Link)
    requires Assembling(l)
    ensures Shaped(l.r)
  {
    forall s | s in l.r.pending ensures |l.r.pending[s].received| == |l.r.pending[s].body| { assert PartialOk(l, s); }
  }

  lemma CoveredMore(taken: seq<Fragment>, f: Fragment, s: u16, i: int)
    ensures Covered(taken + [f], s, i) <==> Covered(taken, s, i) || (f.seqno == s && Within(f, i))
    ensures Heard(taken + [f], s) <==> Heard(taken, s) || f.seqno == s
  {
    var t := taken + [f];
    assert t[|taken|] == f && forall k :: 0 <= k < |taken| ==> t[k] == taken[k];
  }

  /** A genuine fragment is always consistent, and lays its bytes in place. */
  lemma TargetOk(l: Link, f: Fragment)
    requires Assembling(l) && Genuine(l.sent, Take(f)) && InRange(l.r, f)
    ensures Consistent(Target(l.r, f), f)
    ensures var l1 := l.(r := l.r.(pending := l.r.pending[f.seqno := Laid(Target(l.r, f), f)]), taken := l.taken + [f]);
      PartialOk(l1, f.seqno)
  {
    hide Count, Mark, Heard, Covered;
    var p := Target(l.r, f);
    if f.seqno in l.r.pending {
      assert PartialOk(l, f.seqno);
    } else {
      CountNone(f.totalLen);
      assert !Heard(l.taken, f.seqno);
      forall i ensures !Covered(l.taken, f.seqno, i) { Unheard(l.taken, f.seqno, i); }
    }
    MarkIs(p.received, p.have, f.fragOff, |f.frag|);
    forall i ensures Covered(l.taken + [f], f.seqno, i) <==> Covered(l.taken, f.seqno, i) || Within(f, i) {
      CoveredMore(l.taken, f, f.seqno, i);
    }
    OverlayIs(p.body, f, l.sent[f.seqno].body);
  }

  lemma Unheard(taken: seq<Fragment>, s: u16, i: int)
    requires !Heard(taken, s)
    ensures !Covered(taken, s, i)
  {
  }

  lemma OverlayIs(body: Bytes, f: Fragment, whole: Bytes)
    requires f.fragOff + |f.frag| <= |body| == |whole| && f.frag == whole[f.fragOff..f.fragOff + |f.frag|]
    ensures var o := Overlay(body, f.fragOff, f.frag);
      |o| == |body| && forall i :: 0 <= i < |o| ==> o[i] == if Within(f, i) then whole[i] else body[i]
  {
    var o := Overlay(body, f.fragOff, f.frag);
    forall i | 0 <= i < |o| ensures o[i] == if Within(f, i) then whole[i] else body[i] {
      if Within(f, i) { assert o[i] == f.frag[i - f.fragOff] == whole[f.fragOff..f.fragOff + |f.frag|][i - f.fragOff]; }
    }
  }

  lemma TakeAssembles(l: Link, f: Fragment)
    requires Assembling(l) && Shaped(l.r) && Genuine(l.sent, Take(f))
    ensures Assembling(Step(l, Take(f))) && Accept(l.r, f).1
  {
    hide Count, Mark, Heard, Covered, Laid, Consistent;
    if InRange(l.r, f) {
      TargetOk(l, f);
      var n := Step(l, Take(f));
      forall s | s in n.r.pending ensures PartialOk(n, s) && Heard(n.taken, s) {
        CoveredMore(l.taken, f, s, 0);
        if s != f.seqno {
          assert PartialOk(l, s);
          forall i ensures Covered(n.taken, s, i) == Covered(l.taken, s, i) { CoveredMore(l.taken, f, s, i); }
        }
      }
      forall s: u16 | s >= n.r.next && Heard(n.taken, s) ensures s in n.r.pending { CoveredMore(l.taken, f, s, 0); }
    }
  }

  /** The next message is handed over exactly when what was taken in covers it. */
  lemma PollReady(l: Link)
    requires Assembling(l)
    ensures NextMessage(l.r).1.Some? <==> l.r.next < |l.sent| && Arrived(l, l.r.next)
    ensures NextMessage(l.r).1.Some? ==> NextMessage(l.r).1.value == Handed(l.r.next, l.sent[l.r.next])
  {
    hide Count, Heard, Covered;
    var s := l.r.next;
    if s in l.r.pending {
      assert PartialOk(l, s);
      CountFull(l.r.pending[s].received);
    }
  }

  lemma SamePartial(l: Link, n: Link, s: u16)
    requires s in l.r.pending && s < |l.sent| && PartialOk(l, s)
    requires n.sent == l.sent && n.taken == l.taken && s in n.r.pending && n.r.pending[s] == l.r.pending[s]
    ensures PartialOk(n, s)
  {
    hide Count, Covered;
  }

  lemma PollAssembles(l: Link)
    requires Assembling(l) && Shaped(l.r)
    ensures Assembling(Step(l, Poll))
  {
    hide Heard, PartialOk, Arrived;
    PollReady(l);
    var n := Step(l, Poll);
    forall s | s in n.r.pending ensures s < |n.sent| && PartialOk(n, s) && Heard(n.taken, s) { SamePartial(l, n, s); }
    forall s: u16 | s >= n.r.next && Heard(n.taken, s) ensures s in n.r.pending { assert s in l.r.pending; }
  }

  /** The link after a run of operations. */
  function Run(l: Link, ops: seq<Op>): (r: Link)
    requires Assembling(l) && forall k :: 0 <= k < |ops| ==> Genuine(l.sent, ops[k])
    ensures Assembling(r) && r.sent == l.sent
  {
    if ops == [] then l else
    var m := Run(l, ops[..|ops| - 1]);
    StepAssembles(m, ops[|ops| - 1]);
    Step(m, ops[|ops| - 1])
  }

  lemma StepAssembles(l: Link, op: Op)
    requires Assembling(l) && Genuine(l.sent, op)
    ensures Shaped(l.r) && Assembling(Step(l, op)) && Step(l, op).sent == l.sent
  {
    hide Assembling;
    AssemblingShaped(l);
    match op
    case Take(f) => TakeAssembles(l, f);
    case Poll => PollAssembles(l);
  }

  function NewLink(sent: seq<Message>): Link { Link(sent, Reassembler(0, map[]), [], []) }

  /** Over any run of genuine fragments and polls, what is handed over is exactly the
      first messages sent, in order, each once, unaltered. */
  lemma HandsOverInOrder(sent: seq<Message>, ops: seq<Op>)
    requires |sent| < 0x1_0000 && forall k :: 0 <= k < |ops| ==> Genuine(sent, ops[k])
    ensures Assembling(NewLink(sent))
    ensures var h := Run(NewLink(sent), ops).handed;
      |h| <= |sent| && forall j :: 0 <= j < |h| ==> h[j] == Handed(j, sent[j])
  {
  }

  /** Messages that have arrived are handed over by as many polls. */
  lemma {:induction false} PollsHandOver(l: Link, n: nat)
    requires Assembling(l) && l.r.next + n <= |l.sent|
    requires forall s: u16 :: l.r.next <= s < l.r.next + n ==> Arrived(l, s)
    ensures Run(l, seq(n, _ => Poll)).r.next == l.r.next + n && Run(l, seq(n, _ => Poll)).taken == l.taken
    decreases n
  {
    hide Arrived, Assembling, Shaped;
    if n > 0 {
      var ps := seq(n, _ => Poll);
      assert ps[..n - 1] == seq(n - 1, _ => Poll) && ps[n - 1] == Poll;
      PollsHandOver(l, n - 1);
      var m := Run(l, seq(n - 1, _ => Poll));
      AssemblingShaped(m);
      SameArrived(l, m, m.r.next);
      PollAdvances(m);
    }
  }

  lemma SameArrived(l: Link, m: Link, s: u16)
    requires m.sent == l.sent && m.taken == l.taken && s < |l.sent|
    ensures Arrived(l, s) == Arrived(m, s)
  {
  }

  lemma PollAdvances(l: Link)
    requires Assembling(l) && Shaped(l.r) && l.r.next < |l.sent| && Arrived(l, l.r.next)
    ensures Step(l, Poll).r.next == l.r.next + 1 && Step(l, Poll).taken == l.taken
  {
    hide Arrived, PartialOk, Heard;
    PollReady(l);
  }

  /** Taking in all the pieces of any one cut of a message makes it arrive. */
  lemma CutArrives(l: Link, s: u16, maxFragment: int)
    requires s < |l.sent|
    requires forall k :: 0 <= k < |Cut(l.sent[s], s, maxFragment)| ==> Cut(l.sent[s], s, maxFragment)[k] in l.taken
    ensures Arrived(l, s)
  {
    hide CutFrom;
    var avail := if maxFragment - 12 < 1 then 1 else maxFragment - 12;
    var fs := Cut(l.sent[s], s, maxFragment);
    CutPartitions(l.sent[s], s, 0, avail);
    assert fs[0] in l.taken && OfMessage(fs[0], l.sent[s], s);
    forall i | 0 <= i < |l.sent[s].body| ensures Covered(l.taken, s, i) {
      CutCovers(l.sent[s], s, 0, avail, i);
      var k :| 0 <= k < |fs| && Within(fs[k], i);
      assert fs[k] in l.taken && OfMessage(fs[k], l.sent[s], s);
      var j :| 0 <= j < |l.taken| && l.taken[j] == fs[k];
    }
  }

  /** For any fragments at all, at most eight messages are pending. */
  predicate Windowed(r: Reassembler) {
    Shaped(r) && forall s :: s in r.pending ==> r.next <= s < r.next + 8
  }

  lemma AcceptWindowed(r: Reassembler, f: Fragment)
    requires Windowed(r) && f.InBounds()
    ensures Windowed(Accept(r, f).0)
  {
    if InRange(r, f) && Consistent(Target(r, f), f) {
      var p := Target(r, f);
      assert |Laid(p, f).received| == |p.received|;
    }
  }

  lemma PollWindowed(r: Reassembler)
    requires Windowed(r)
    ensures Windowed(NextMessage(r).0)
  {
  }

  lemma PendingBounded(r: Reassembler)
    requires Windowed(r)
    ensures |r.pending| <= MAX_PENDING
  {
    KeysBounded(r.pending.Keys, r.next, 8);
  }

  lemma {:induction false} KeysBounded(ks: set<u16>, lo: int, n: nat)
    requires forall k :: k in ks ==> lo <= k < lo + n
    ensures |ks| <= n
    decreases n
  {
    if n == 0 {
      assert ks == {};
    } else if last :| last in ks && last == lo + n - 1 {
      KeysBounded(ks - {last}, lo, n - 1);
    } else {
      KeysBounded(ks, lo, n - 1);
    }
  }
}
