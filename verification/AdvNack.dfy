/** Advanced-profile NACK packing (internal/adv/adv_ctrl.go; sections 5.3.2 and 5.3.3 of
    VSF TR-06-3): full 32-bit sequence numbers, in any order, with repeats, as bitmask
    or range entries. The entries ask for exactly the numbers given, and the bitmask
    entries are as few as can be. */
module AdvNack {
  import opened Serial
  import Arith
  import opened Bits
  import RtcpNack

  const MAX_RANGE := 10000

  // ---- sorting by signed distance from the first ----

  /** `int32(s - pivot)`. */
  function Signed(pivot: u32, s: u32): int {
    var d := Fwd(pivot, s);
    if d < 0x8000_0000 then d else d - 0x1_0000_0000
  }

  function Insert(pivot: u32, x: u32, s: seq<u32>): seq<u32> {
    if s == [] then [x]
    else if Signed(pivot, x) <= Signed(pivot, s[0]) then [x] + s
    else [s[0]] + Insert(pivot, x, s[1..])
  }

  /** The library sort: the numbers in order of signed distance. */
  function SortFrom(pivot: u32, s: seq<u32>): seq<u32> {
    if s == [] then [] else Insert(pivot, s[0], SortFrom(pivot, s[1..]))
  }

  function SortWrap(s: seq<u32>): seq<u32> { if s == [] then [] else SortFrom(s[0], s) }

  predicate SortedFrom(pivot: u32, s: seq<u32>) {
    forall i, j :: 0 <= i < j < |s| ==> Signed(pivot, s[i]) <= Signed(pivot, s[j])
  }

  lemma {:induction false} InsertKeeps(pivot: u32, x: u32, s: seq<u32>)
    ensures multiset(Insert(pivot, x, s)) == multiset(s) + multiset{x}
    ensures forall y :: y in Insert(pivot, x, s) ==> y == x || y in s
  {
    hide Signed;
    if s != [] {
      assert s == [s[0]] + s[1..];
      if Signed(pivot, x) > Signed(pivot, s[0]) { InsertKeeps(pivot, x, s[1..]); }
    }
  }

  lemma {:induction false} InsertSorts(pivot: u32, x: u32, s: seq<u32>)
    requires SortedFrom(pivot, s)
    ensures SortedFrom(pivot, Insert(pivot, x, s))
  {
    hide Signed;
    if s != [] && Signed(pivot, x) > Signed(pivot, s[0]) {
      InsertSorts(pivot, x, s[1..]);
      InsertKeeps(pivot, x, s[1..]);
      var r := Insert(pivot, x, s[1..]);
      forall k | 0 <= k < |r| ensures Signed(pivot, s[0]) <= Signed(pivot, r[k]) { assert r[k] == x || r[k] in s[1..]; }
    }
  }

  lemma {:induction false} SortSorts(pivot: u32, s: seq<u32>)
    ensures SortedFrom(pivot, SortFrom(pivot, s)) && multiset(SortFrom(pivot, s)) == multiset(s)
  {
    if s != [] {
      SortSorts(pivot, s[1..]);
      InsertSorts(pivot, s[0], SortFrom(pivot, s[1..]));
      InsertKeeps(pivot, s[0], SortFrom(pivot, s[1..]));
      assert s == [s[0]] + s[1..];
    }
  }

  lemma SortKeeps(s: seq<u32>)
    ensures |SortWrap(s)| == |s| && forall x :: x in SortWrap(s) <==> x in s
  {
    if s != [] {
      SortSorts(s[0], s);
      var t := SortWrap(s);
      assert |t| == |multiset(t)| && |s| == |multiset(s)|;
      forall x ensures x in t <==> x in s { assert x in multiset(t) <==> x in multiset(s); }
    }
  }

  // ---- bitmask entries ----

  /** pss, and pss + 1 + i for each set bit i of 32. */
  datatype NackBitmask = NackBitmask(pss: u32, blp: nat)

  predicate Asks(e: NackBitmask, i: nat, x: u32) { Bit(e.blp, i) && x == Plus(e.pss, i + 1) }

  /** The numbers an entry asks for. */
  predicate Wants(e: NackBitmask, x: u32) { x == e.pss || exists i :: 0 <= i < 32 && Asks(e, i, x) }

  function Upto(e: NackBitmask, n: nat): seq<u32> {
    if n == 0 then [e.pss] else Upto(e, n - 1) + (if Bit(e.blp, n - 1) then [Plus(e.pss, n)] else [])
  }

  lemma {:induction false} UptoHas(e: NackBitmask, n: nat, x: u32)
    ensures x in Upto(e, n) <==> x == e.pss || exists i :: 0 <= i < n && Asks(e, i, x)
  {
    hide Bit, Plus;
    if n > 0 {
      UptoHas(e, n - 1, x);
      assert x in Upto(e, n) <==> x in Upto(e, n - 1) || Asks(e, n - 1, x);
    }
  }

  /** Expand an entry. */
  method Missing(e: NackBitmask) returns (out: seq<u32>)
    ensures forall x :: x in out <==> Wants(e, x)
  {
    hide Bit, Plus;
    out := [e.pss];
    for i := 0 to 32
      invariant out == Upto(e, i)
    {
      if Bit(e.blp, i) {
        out := out + [Plus(e.pss, 1 + i)];
      }
    }
    forall x ensures x in out <==> Wants(e, x) { UptoHas(e, 32, x); }
  }

  lemma WantsMore(e: NackBitmask, x: u32, y: u32)
    requires 1 <= Fwd(e.pss, x) <= 32
    ensures Wants(e.(blp := SetBit(e.blp, Fwd(e.pss, x) - 1)), y) <==> Wants(e, y) || y == x
  {
    hide Bit, SetBit, Plus, Fwd;
    var d := Fwd(e.pss, x) - 1;
    var q := e.(blp := SetBit(e.blp, d));
    PlusFwd(e.pss, x);
    forall i | 0 <= i < 32 ensures Asks(q, i, y) <==> Asks(e, i, y) || (i == d && y == x) { BitSet(e.blp, d, i); }
    BitSet(e.blp, d, d);
    assert Asks(q, d, x);
  }

  lemma WantsOne(pss: u32, y: u32)
    ensures Wants(NackBitmask(pss, 0), y) <==> y == pss
  {
    hide Bit;
    forall i | 0 <= i < 32 ensures !Asks(NackBitmask(pss, 0), i, y) { BitZero(i); }
  }

  predicate WantsAny(es: seq<NackBitmask>, x: u32) { exists k :: 0 <= k < |es| && Wants(es[k], x) }

  lemma WantsAppend(es: seq<NackBitmask>, e: NackBitmask, x: u32)
    ensures WantsAny(es + [e], x) <==> WantsAny(es, x) || Wants(e, x)
  {
    hide Wants;
    assert (es + [e])[|es|] == e && forall k :: 0 <= k < |es| ==> (es + [e])[k] == es[k];
    if Wants(e, x) { assert Wants((es + [e])[|es|], x); }
  }

  /** The list lies within half the sequence space, from lo. */
  predicate Near(lo: u32, s: seq<u32>) {
    forall i :: 0 <= i < |s| ==> Fwd(lo, s[i]) < 0x8000_0000
  }

  /** In such a list, sorting by signed distance is sorting by position. */
  lemma SortedByPosition(lo: u32, s: seq<u32>, i: nat, j: nat)
    requires Near(lo, s) && s != [] && i < j < |s|
    ensures |SortWrap(s)| == |s| && Fwd(lo, SortWrap(s)[i]) <= Fwd(lo, SortWrap(s)[j]) < 0x8000_0000
  {
    hide SortFrom;
    SortSorts(s[0], s);
    SortKeeps(s);
    var t := SortWrap(s);
    assert t[i] in s && t[j] in s;
    SignedPosition(lo, s[0], t[i]);
    SignedPosition(lo, s[0], t[j]);
  }

  lemma SignedPosition(lo: u32, pivot: u32, x: u32)
    requires Fwd(lo, pivot) < 0x8000_0000 && Fwd(lo, x) < 0x8000_0000
    ensures Signed(pivot, x) == Fwd(lo, x) - Fwd(lo, pivot)
  {
  }

  /** Entries start more than 32 apart, seen from lo. */
  predicate Apart(lo: u32, es: seq<NackBitmask>) {
    forall a, b :: 0 <= a < b < |es| ==> Fwd(lo, es[a].pss) + 32 < Fwd(lo, es[b].pss) < 0x8000_0000
  }

  /** The next entry would start more than 32 beyond the last. */
  predicate Clear(lo: u32, es: seq<NackBitmask>, x: u32) {
    forall a :: 0 <= a < |es| ==> Fwd(lo, es[a].pss) + 32 < Fwd(lo, x) < 0x8000_0000
  }

  lemma ApartAppend(lo: u32, es: seq<NackBitmask>, e: NackBitmask, all: seq<NackBitmask>)
    requires Apart(lo, es) && Clear(lo, es, e.pss) && all == es + [e]
    ensures Apart(lo, all)
  {
    forall a, b | 0 <= a < b < |all| ensures Fwd(lo, all[a].pss) + 32 < Fwd(lo, all[b].pss) < 0x8000_0000 {
      assert all[a] == es[a];
      if b == |es| {
        assert all[b] == e && Fwd(lo, es[a].pss) + 32 < Fwd(lo, e.pss) < 0x8000_0000;
      } else {
        assert all[b] == es[b] && Fwd(lo, es[a].pss) + 32 < Fwd(lo, es[b].pss) < 0x8000_0000;
      }
    }
  }

  lemma StillClear(lo: u32, es: seq<NackBitmask>, e: NackBitmask, x: u32)
    requires Clear(lo, es, e.pss) && Fwd(lo, e.pss) <= Fwd(lo, x) < 0x8000_0000 && Fwd(e.pss, x) > 32
    ensures Clear(lo, es + [e], x)
  {
  }

  /** Bitmask entries for any list. They ask for exactly its numbers; and if the list
      lies within half the sequence space of some lo, they start far apart. */
  method EncodeBitmask(missing: seq<u32>, ghost lo: u32) returns (out: seq<NackBitmask>)
    ensures forall x :: WantsAny(out, x) <==> x in missing
    ensures Near(lo, missing) ==> Apart(lo, out)
  {
    hide Wants, WantsAny, SortWrap, Bit, SetBit, Near, Apart, Clear, Fwd;
    out := [];
    NoEntries(lo);
    if |missing| == 0 {
      return;
    }
    var s := SortWrap(missing);
    SortKeeps(missing);
    var i := 0;
    while i < |s|
      invariant 0 <= i <= |s|
      invariant forall x :: WantsAny(out, x) <==> x in s[..i]
      invariant Near(lo, missing) ==> Apart(lo, out) && (i < |s| ==> Clear(lo, out, s[i]))
    {
      var e, j := OneBitmask(s, i);
      forall x ensures WantsAny(out + [e], x) <==> x in s[..j] {
        WantsAppend(out, e, x);
        assert s[..j] == s[..i] + s[i..j];
      }
      if Near(lo, missing) {
        ApartAppend(lo, out, e, out + [e]);
        if j < |s| {
          SortedByPosition(lo, missing, i, j);
          StillClear(lo, out, e, s[j]);
        }
      }
      out := out + [e];
      i := j;
    }
    assert s[..|s|] == s;
  }

  lemma NoEntries(lo: u32)
    ensures (forall x :: !WantsAny([], x)) && Apart(lo, []) && forall x :: Clear(lo, [], x)
  {
  }

  /** The entry that starts at s[i], taking in what follows up to 32 ahead. */
  method OneBitmask(s: seq<u32>, i: nat) returns (e: NackBitmask, j: nat)
    requires i < |s|
    ensures i < j <= |s| && e.pss == s[i]
    ensures forall x :: Wants(e, x) <==> x in s[i..j]
    ensures j < |s| ==> Fwd(s[i], s[j]) > 32
  {
    hide Wants, Bit, SetBit, Fwd;
    var pss, blp := s[i], 0;
    j := i + 1;
    forall x ensures Wants(NackBitmask(pss, 0), x) <==> x in s[i..i + 1] { WantsOne(pss, x); }
    SelfZero(pss);
    while j < |s|
      invariant i < j <= |s|
      invariant forall x :: Wants(NackBitmask(pss, blp), x) <==> x in s[i..j]
    {
      var delta := Fwd(pss, s[j]);
      assert s[i..j + 1] == s[i..j] + [s[j]];
      if delta == 0 {
        FwdZero(pss, s[j]);
      } else if delta > 32 {
        break;
      } else {
        ghost var grown := NackBitmask(pss, SetBit(blp, delta - 1));
        forall x ensures Wants(grown, x) <==> x in s[i..j + 1] {
          WantsMore(NackBitmask(pss, blp), s[j], x);
        }
        blp := SetBit(blp, delta - 1);
      }
      j := j + 1;
    }
    e := NackBitmask(pss, blp);
  }

  lemma SelfZero(a: u32)
    ensures Fwd(a, a) == 0
  {
  }

  lemma FwdZero(a: u32, b: u32)
    ensures Fwd(a, b) == 0 <==> a == b
  {
  }

  /** The entry that asks for x. */
  ghost function EntryFor(es: seq<NackBitmask>, x: u32): (k: nat)
    requires WantsAny(es, x)
    ensures k < |es| && Wants(es[k], x)
  {
    var k :| 0 <= k < |es| && Wants(es[k], x);
    k
  }

  lemma Reach(e: NackBitmask, x: u32)
    requires Wants(e, x)
    ensures Fwd(e.pss, x) <= 32
  {
    hide Bit;
    if x != e.pss {
      var i :| 0 <= i < 32 && Asks(e, i, x);
      FwdPlus(e.pss, i + 1);
    }
  }

  lemma FarApart(lo: u32, p: u32, a: u32, b: u32)
    requires Fwd(lo, a) + 32 < Fwd(lo, b) < 0x8000_0000
    ensures !(Fwd(p, a) <= 32 && Fwd(p, b) <= 32)
  {
  }

  /** No entries that ask for the same numbers are fewer. */
  lemma BitmaskFewest(lo: u32, es: seq<NackBitmask>, other: seq<NackBitmask>)
    requires Apart(lo, es) && forall x :: WantsAny(es, x) <==> WantsAny(other, x)
    ensures |es| <= |other|
  {
    hide Wants;
    forall k | 0 <= k < |es| ensures WantsAny(other, es[k].pss) {
      WantsSelf(es[k]);
      assert WantsAny(es, es[k].pss);
    }
    var owners := seq(|es|, k requires 0 <= k < |es| => EntryFor(other, es[k].pss));
    forall i, j | 0 <= i < j < |owners| ensures owners[i] != owners[j] {
      Reach(other[owners[i]], es[i].pss);
      Reach(other[owners[j]], es[j].pss);
      FarApart(lo, other[owners[i]].pss, es[i].pss, es[j].pss);
    }
    Arith.Pigeonhole(owners, |other|);
  }

  lemma WantsSelf(e: NackBitmask)
    ensures Wants(e, e.pss)
  {
  }

  // ---- range entries ----

  /** pss and nalp more after it. */
  datatype RangeEntry = RangeEntry(pss: u32, nalp: nat)

  /** What a decoder takes from an entry; it stops at the recovery cap. */
  predicate Spans(e: RangeEntry, x: u32) {
    Fwd(e.pss, x) <= if e.nalp > MAX_RANGE then MAX_RANGE else e.nalp
  }

  predicate SpansAny(es: seq<RangeEntry>, x: u32) { exists k :: 0 <= k < |es| && Spans(es[k], x) }

  lemma SpansAppend(es: seq<RangeEntry>, e: RangeEntry, x: u32)
    ensures SpansAny(es + [e], x) <==> SpansAny(es, x) || Spans(e, x)
  {
    hide Spans;
    assert (es + [e])[|es|] == e && forall k :: 0 <= k < |es| ==> (es + [e])[k] == es[k];
    if Spans(e, x) { assert Spans((es + [e])[|es|], x); }
  }

  method MissingRange(e: RangeEntry) returns (out: seq<u32>)
    ensures forall x :: x in out <==> Spans(e, x)
    ensures forall i :: 0 <= i < |out| ==> out[i] == Plus(e.pss, i)
  {
    var count := e.nalp;
    if count > MAX_RANGE {
      count := MAX_RANGE;
    }
    out := [];
    for i := 0 to count + 1
      invariant |out| == i && forall k :: 0 <= k < i ==> out[k] == Plus(e.pss, k)
    {
      out := out + [Plus(e.pss, i)];
    }
    forall x ensures x in out <==> Spans(e, x) {
      PlusFwd(e.pss, x);
      if Spans(e, x) { assert out[Fwd(e.pss, x)] == x; }
      if x in out {
        var k :| 0 <= k < |out| && out[k] == x;
        FwdPlus(e.pss, k);
      }
    }
  }

  /** No entry could have been joined to the one before it. */
  predicate Maximal(es: seq<RangeEntry>) {
    forall k :: 0 < k < |es| ==> es[k].pss != Plus(es[k - 1].pss, es[k - 1].nalp + 1) || es[k - 1].nalp == 9999
  }

  /** The entries lie one after the other, seen from lo. */
  predicate Runs(lo: u32, es: seq<RangeEntry>) {
    forall a, b :: 0 <= a < b < |es| ==> Fwd(lo, es[a].pss) + es[a].nalp < Fwd(lo, es[b].pss) < 0x8000_0000
  }

  /** The next entry would start beyond them all. */
  predicate Beyond(lo: u32, es: seq<RangeEntry>, x: u32) {
    forall a :: 0 <= a < |es| ==> Fwd(lo, es[a].pss) + es[a].nalp < Fwd(lo, x) < 0x8000_0000
  }

  lemma RunsAppend(lo: u32, es: seq<RangeEntry>, e: RangeEntry, all: seq<RangeEntry>)
    requires Runs(lo, es) && Beyond(lo, es, e.pss) && all == es + [e]
    ensures Runs(lo, all)
  {
    forall a, b | 0 <= a < b < |all| ensures Fwd(lo, all[a].pss) + all[a].nalp < Fwd(lo, all[b].pss) < 0x8000_0000 {
      assert all[a] == es[a];
      if b == |es| {
        assert all[b] == e && Fwd(lo, es[a].pss) + es[a].nalp < Fwd(lo, e.pss) < 0x8000_0000;
      } else {
        assert all[b] == es[b] && Fwd(lo, es[a].pss) + es[a].nalp < Fwd(lo, es[b].pss) < 0x8000_0000;
      }
    }
  }

  lemma StillBeyond(lo: u32, es: seq<RangeEntry>, e: RangeEntry, last: u32, x: u32)
    requires Beyond(lo, es, e.pss) && e.nalp == Fwd(e.pss, last)
    requires Fwd(lo, e.pss) <= Fwd(lo, last) < Fwd(lo, x) < 0x8000_0000
    ensures Beyond(lo, es + [e], x)
  {
    var all := es + [e];
    forall a | 0 <= a < |all| ensures Fwd(lo, all[a].pss) + all[a].nalp < Fwd(lo, x) {
      if a < |es| { assert all[a] == es[a]; } else { assert all[a] == e; }
    }
  }

  /** Range entries for any list. They ask for exactly its numbers, and stay below the
      cap at which a receiver would stop short; and if the list lies within half the
      sequence space of some lo, they lie one after the other. */
  method EncodeRange(missing: seq<u32>, ghost lo: u32) returns (out: seq<RangeEntry>)
    ensures forall x :: SpansAny(out, x) <==> x in missing
    ensures forall k :: 0 <= k < |out| ==> out[k].nalp <= 9999
    ensures Maximal(out)
    ensures Near(lo, missing) ==> Runs(lo, out)
  {
    hide Spans, SpansAny, SortWrap, Fwd, Plus, Near, Runs, Beyond;
    out := [];
    NoRanges(lo);
    if |missing| == 0 {
      return;
    }
    var s := SortWrap(missing);
    SortKeeps(missing);
    var i := 0;
    while i < |s|
      invariant 0 <= i <= |s|
      invariant forall x :: SpansAny(out, x) <==> x in s[..i]
      invariant forall k :: 0 <= k < |out| ==> out[k].nalp <= 9999
      invariant Maximal(out)
      invariant |out| > 0 && i < |s| ==>
        s[i] != Plus(out[|out| - 1].pss, out[|out| - 1].nalp + 1) || out[|out| - 1].nalp == 9999
      invariant Near(lo, missing) ==> Runs(lo, out) && (i < |s| ==> Beyond(lo, out, s[i]))
    {
      var e, j := OneRange(s, i);
      forall x ensures SpansAny(out + [e], x) <==> x in s[..j] {
        SpansAppend(out, e, x);
        assert s[..j] == s[..i] + s[i..j];
      }
      if Near(lo, missing) {
        RunsAppend(lo, out, e, out + [e]);
        if j < |s| { NextBeyond(lo, missing, out, e, i, j); }
      }
      out := out + [e];
      i := j;
    }
    assert s[..|s|] == s;
  }

  lemma NextBeyond(lo: u32, missing: seq<u32>, out: seq<RangeEntry>, e: RangeEntry, i: nat, j: nat)
    requires Near(lo, missing) && missing != [] && i < j < |missing| == |SortWrap(missing)|
    requires var s := SortWrap(missing);
      Beyond(lo, out, s[i]) && e.pss == s[i] && e.nalp == Fwd(s[i], s[j - 1]) && s[j] != s[j - 1]
    ensures Beyond(lo, out + [e], SortWrap(missing)[j])
  {
    hide SortWrap, Near, Beyond;
    var s := SortWrap(missing);
    SortedByPosition(lo, missing, j - 1, j);
    if i < j - 1 { SortedByPosition(lo, missing, i, j - 1); }
    FwdSame(lo, s[j - 1], s[j]);
    StillBeyond(lo, out, e, s[j - 1], s[j]);
  }

  lemma NoRanges(lo: u32)
    ensures (forall x :: !SpansAny([], x)) && Runs(lo, []) && forall x :: Beyond(lo, [], x)
  {
  }

  /** The run that starts at s[i]. */
  method OneRange(s: seq<u32>, i: nat) returns (e: RangeEntry, next: nat)
    requires i < |s|
    ensures i < next <= |s| && e.pss == s[i] && e.nalp <= 9999
    ensures forall x :: Spans(e, x) <==> x in s[i..next]
    ensures next < |s| ==> s[next] != Plus(e.pss, e.nalp + 1) || e.nalp == 9999
    ensures e.nalp == Fwd(s[i], s[next - 1]) && (next < |s| ==> s[next] != s[next - 1])
  {
    hide Fwd, Plus;
    var pss, j := s[i], i;
    SelfZero(pss);
    forall x ensures Fwd(pss, x) <= Fwd(pss, pss) <==> x in s[i..i + 1] { FwdZero(pss, x); }
    while j + 1 < |s|
      invariant i <= j < |s| && Fwd(pss, s[j]) <= 9999
      invariant forall x :: Fwd(pss, x) <= Fwd(pss, s[j]) <==> x in s[i..j + 1]
    {
      var nx := s[j + 1];
      assert s[i..j + 2] == s[i..j + 1] + [nx];
      PlusFwd(pss, s[j]);
      if nx != s[j] {
        if nx != Plus(s[j], 1) {
          break;
        }
        FwdNext(pss, s[j]);
        if Fwd(pss, nx) >= MAX_RANGE {
          break;
        }
        forall x ensures Fwd(pss, x) <= Fwd(pss, nx) <==> x in s[i..j + 2] { FwdSame(pss, x, nx); }
      }
      j := j + 1;
    }
    e := RangeEntry(pss, Fwd(pss, s[j]));
    next := j + 1;
    PlusFwd(pss, s[j]);
    PlusPlus(pss, Fwd(pss, s[j]), 1);
  }

  lemma FwdNext(a: u32, b: u32)
    requires Fwd(a, b) < 0xFFFF_FFFF
    ensures Fwd(a, Plus(b, 1)) == Fwd(a, b) + 1
  {
  }

  lemma FwdSame(a: u32, x: u32, y: u32)
    ensures Fwd(a, x) == Fwd(a, y) <==> x == y
  {
  }

  // ---- no fewer ranges ----

  /** The entry that asks for x. */
  ghost function RangeFor(es: seq<RangeEntry>, x: u32): (k: nat)
    requires SpansAny(es, x)
    ensures k < |es| && Spans(es[k], x)
  {
    var k :| 0 <= k < |es| && Spans(es[k], x);
    k
  }

  /** The number just after an entry that does not join the next is asked for by none. */
  lemma GapUnasked(lo: u32, es: seq<RangeEntry>, i: nat)
    requires Runs(lo, es) && Maximal(es) && i + 1 < |es| && es[i].nalp < 9999
    requires forall k :: 0 <= k < |es| ==> es[k].nalp <= 9999
    ensures var g := Plus(es[i].pss, es[i].nalp + 1);
      && Fwd(lo, g) == Fwd(lo, es[i].pss) + es[i].nalp + 1 < Fwd(lo, es[i + 1].pss)
      && !SpansAny(es, g)
  {
    hide Plus, Fwd;
    var g := Plus(es[i].pss, es[i].nalp + 1);
    assert es[i + 1].pss != g;
    AfterEntry(lo, es[i].pss, es[i].nalp, es[i + 1].pss);
    forall k | 0 <= k < |es| ensures !Spans(es[k], g) {
      if k <= i {
        BehindIs(lo, es[k].pss, es[k].nalp, g);
      } else {
        AheadIs(lo, es[k].pss, g);
      }
    }
  }

  lemma AfterEntry(lo: u32, p: u32, n: nat, q: u32)
    requires n < 9999 && Fwd(lo, p) + n < Fwd(lo, q) < 0x8000_0000 && q != Plus(p, n + 1)
    ensures Fwd(lo, Plus(p, n + 1)) == Fwd(lo, p) + n + 1 < Fwd(lo, q)
  {
  }

  lemma BehindIs(lo: u32, p: u32, n: nat, g: u32)
    requires Fwd(lo, p) + n < Fwd(lo, g) && n <= 9999
    ensures !Spans(RangeEntry(p, n), g)
  {
  }

  lemma AheadIs(lo: u32, p: u32, g: u32)
    requires Fwd(lo, g) < Fwd(lo, p) < 0x8000_0000
    ensures Fwd(p, g) > MAX_RANGE
  {
  }

  /** A span that takes in two numbers takes in those between, and they are near. */
  lemma SpanBetween(lo: u32, e: RangeEntry, a: u32, b: u32, g: u32)
    requires e.nalp <= 9999 && Spans(e, a) && Spans(e, b) && Fwd(lo, a) <= Fwd(lo, g) <= Fwd(lo, b) < 0x8000_0000
    ensures Spans(e, g) && Fwd(lo, b) - Fwd(lo, a) <= 9999
  {
  }

  /** One entry cannot ask for the starts of two of es and for nothing else. */
  lemma OneStartEach(lo: u32, es: seq<RangeEntry>, i: nat, j: nat, e: RangeEntry)
    requires Runs(lo, es) && Maximal(es) && i < j < |es| && e.nalp <= 9999
    requires forall k :: 0 <= k < |es| ==> es[k].nalp <= 9999
    requires forall x :: Spans(e, x) ==> SpansAny(es, x)
    ensures !(Spans(e, es[i].pss) && Spans(e, es[j].pss))
  {
    hide Fwd, Spans, Plus, Maximal;
    if Spans(e, es[i].pss) && Spans(e, es[j].pss) {
      SpanBetween(lo, e, es[i].pss, es[j].pss, es[j].pss);
      if es[i].nalp < 9999 {
        GapUnasked(lo, es, i);
        SpanBetween(lo, e, es[i].pss, es[j].pss, Plus(es[i].pss, es[i].nalp + 1));
      }
    }
  }

  /** No entries within the same cap that ask for the same numbers are fewer. */
  lemma RangeFewest(lo: u32, es: seq<RangeEntry>, other: seq<RangeEntry>)
    requires Runs(lo, es) && Maximal(es)
    requires forall k :: 0 <= k < |es| ==> es[k].nalp <= 9999
    requires forall k :: 0 <= k < |other| ==> other[k].nalp <= 9999
    requires forall x :: SpansAny(es, x) <==> SpansAny(other, x)
    ensures |es| <= |other|
  {
    hide Spans, Fwd, Runs, Maximal;
    forall k | 0 <= k < |es| ensures SpansAny(other, es[k].pss) {
      SpansSelf(es[k]);
      assert SpansAny(es, es[k].pss);
    }
    var owners := seq(|es|, k requires 0 <= k < |es| => RangeFor(other, es[k].pss));
    forall i, j | 0 <= i < j < |owners| ensures owners[i] != owners[j] {
      var e := other[owners[i]];
      forall x | Spans(e, x) ensures SpansAny(es, x) { assert SpansAny(other, x); }
      OneStartEach(lo, es, i, j, e);
    }
    Arith.Pigeonhole(owners, |other|);
  }

  lemma SpansSelf(e: RangeEntry)
    ensures Spans(e, e.pss)
  {
  }

  /** A receiver would take one number more from an entry than a sender may ask for, so
      the sender needs two entries where one over the cap would do. */
  lemma OverCapIsFewer(lo: u32, x: u32)
    ensures SpansAny([RangeEntry(lo, 9999), RangeEntry(Plus(lo, 10000), 0)], x) <==> SpansAny([RangeEntry(lo, 10000)], x)
  {
    var two, one := [RangeEntry(lo, 9999), RangeEntry(Plus(lo, 10000), 0)], [RangeEntry(lo, 10000)];
    assert SpansAny(one, x) <==> Spans(one[0], x);
    assert SpansAny(two, x) <==> Spans(two[0], x) || Spans(two[1], x);
    FwdPlus(lo, 10000);
    PlusFwd(lo, x);
    FwdZero(Plus(lo, 10000), x);
  }
}
