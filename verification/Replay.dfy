/** The DTLS anti-replay window (internal/dtls/replay.go; section 4.1.2.6 of RFC 6347):
    a 64-bit bitmap that answers exactly as the set of accepted sequence numbers
    would, for the 64 newest. No sequence number is ever accepted twice. */
module Replay {
  import opened Bits

  datatype Window = Window(right: nat, bitmap: nat, seen: bool)

  const EMPTY := Window(0, 0, false)

  predicate Check(w: Window, s: nat) {
    !w.seen || s > w.right || (w.right - s < 64 && !Bit(w.bitmap, w.right - s))
  }

  function Mark(w: Window, s: nat): Window {
    if !w.seen then Window(s, 1, true)
    else if s > w.right then
      var shift := s - w.right;
      Window(s, if shift >= 64 then 1 else SetBit(Low(Shl(w.bitmap, shift), 64), 0), true)
    else if w.right - s < 64 then w.(bitmap := SetBit(w.bitmap, w.right - s))
    else w
  }

  // ---- the set it stands for ----

  /** Bit i says whether right - i was accepted. */
  ghost predicate Stands(w: Window, accepted: set<nat>) {
    if !w.seen then accepted == {}
    else
      && w.right in accepted
      && (forall s :: s in accepted ==> s <= w.right)
      && (forall i :: 0 <= i < 64 ==> (Bit(w.bitmap, i) <==> i <= w.right && w.right - i in accepted))
  }

  /** The window accepts exactly the new sequence numbers that are not too old. */
  lemma CheckIsExact(w: Window, accepted: set<nat>, s: nat)
    requires Stands(w, accepted)
    ensures Check(w, s) <==> s !in accepted && (!w.seen || s > w.right || w.right - s < 64)
  {
    hide Bit;
    if w.seen && s <= w.right && w.right - s < 64 {
      assert Bit(w.bitmap, w.right - s) <==> w.right - (w.right - s) in accepted;
    }
  }

  /** Marking any sequence number adds it to the set. */
  lemma MarkAdds(w: Window, accepted: set<nat>, s: nat)
    requires Stands(w, accepted)
    ensures Stands(Mark(w, s), accepted + {s})
  {
    hide Bit, SetBit, Shl, Low;
    var n := Mark(w, s);
    forall i | 0 <= i < 64 ensures Bit(n.bitmap, i) <==> i <= n.right && n.right - i in accepted + {s} {
      MarkBit(w, accepted, s, i);
    }
  }

  lemma MarkBit(w: Window, accepted: set<nat>, s: nat, i: nat)
    requires Stands(w, accepted) && i < 64
    ensures var n := Mark(w, s); Bit(n.bitmap, i) <==> i <= n.right && n.right - i in accepted + {s}
  {
    hide Bit, SetBit, Shl, Low;
    BitOne(i);
    if w.seen && s > w.right {
      var k := s - w.right;
      if k < 64 {
        BitSet(Low(Shl(w.bitmap, k), 64), 0, i);
        BitLow(Shl(w.bitmap, k), 64, i);
        BitShl(w.bitmap, k, i);
      }
    } else if w.seen && w.right - s < 64 {
      BitSet(w.bitmap, w.right - s, i);
    }
  }

  // ---- whole runs ----

  /** Offer each number in turn; those that pass the check are marked. */
  function Run(w: Window, accepted: set<nat>, offers: seq<nat>): (Window, set<nat>, seq<bool>)
    decreases |offers|
  {
    if offers == [] then (w, accepted, []) else
    var s := offers[|offers| - 1];
    var (w1, a1, oks) := Run(w, accepted, offers[..|offers| - 1]);
    if Check(w1, s) then (Mark(w1, s), a1 + {s}, oks + [true]) else (w1, a1, oks + [false])
  }

  /** Over every run the window stands for the set accepted, no number is accepted
      twice, and a number is refused only if it was accepted or is 64 or more old. */
  lemma {:induction false} NoReplay(offers: seq<nat>)
    ensures var (w, accepted, oks) := Run(EMPTY, {}, offers);
      && Stands(w, accepted) && |oks| == |offers|
      && (forall s :: s in accepted <==> exists i :: 0 <= i < |offers| && oks[i] && offers[i] == s)
      && (forall i, j :: 0 <= i < j < |offers| && oks[i] && oks[j] ==> offers[i] != offers[j])
    decreases |offers|
  {
    hide Stands, Check, Mark;
    if offers == [] {
      assert Stands(EMPTY, {}) by { EmptyStands(); }
    } else {
      var n := |offers| - 1;
      NoReplay(offers[..n]);
      var (w, accepted, oks) := Run(EMPTY, {}, offers[..n]);
      CheckIsExact(w, accepted, offers[n]);
      MarkAdds(w, accepted, offers[n]);
      var (_, all, oks') := Run(EMPTY, {}, offers);
      assert forall i :: 0 <= i < n ==> oks'[i] == oks[i] && offers[..n][i] == offers[i];
      forall s ensures s in all <==> exists i :: 0 <= i <= n && oks'[i] && offers[i] == s {
        if s in accepted {
          var i :| 0 <= i < n && oks[i] && offers[..n][i] == s;
          assert oks'[i] && offers[i] == s;
        }
        if i :| 0 <= i < n && oks'[i] && offers[i] == s { assert offers[..n][i] == s; }
      }
    }
  }

  lemma EmptyStands()
    ensures Stands(EMPTY, {})
  {
  }

  /** The bitmap stays a 64-bit word. */
  lemma MarkFits(w: Window, s: nat)
    requires w.bitmap < Pow2(64)
    ensures Mark(w, s).bitmap < Pow2(64)
  {
    hide Bit, SetBit, Shl, Low, Pow2;
    One64();
    if w.seen && s > w.right {
      LowBelow(Shl(w.bitmap, s - w.right), 64);
      SetBelow(Low(Shl(w.bitmap, s - w.right), 64), 0, 64);
    } else if w.seen && w.right - s < 64 {
      SetBelow(w.bitmap, w.right - s, 64);
    }
  }

  lemma One64()
    ensures 1 < Pow2(64)
  {
    Positive(63);
  }

  lemma {:induction false} Positive(n: nat)
    ensures Pow2(n) >= 1
  {
    if n > 0 { Positive(n - 1); }
  }

  // ---- the window as the source keeps it ----

  class ReplayWindow {
    var right: nat
    var bitmap: nat
    var seen: bool

    function Abs(): Window
      reads this
    {
      Window(right, bitmap, seen)
    }

    constructor ()
      ensures Abs() == EMPTY
    {
      right, bitmap, seen := 0, 0, false;
    }

    method CheckSeq(s: nat) returns (ok: bool)
      ensures ok == Check(Abs(), s)
    {
      if !seen || s > right {
        return true;
      }
      var diff := right - s;
      if diff >= 64 {
        return false;
      }
      return !Bit(bitmap, diff);
    }

    method MarkSeq(s: nat)
      modifies this
      ensures Abs() == Mark(old(Abs()), s)
    {
      if !seen {
        seen, right, bitmap := true, s, 1;
        return;
      }
      if s > right {
        var shift := s - right;
        if shift >= 64 {
          bitmap := 1;
        } else {
          bitmap := SetBit(Low(Shl(bitmap, shift), 64), 0);
        }
        right := s;
        return;
      }
      var diff := right - s;
      if diff < 64 {
        bitmap := SetBit(bitmap, diff);
      }
    }
  }
}
