/** RTCP NACK packing (internal/rtcp/nack.go; section 6.2.1 of RFC 4585, section 5.3.2
    of VSF TR-06-1): 16-bit sequence numbers as ranges or as bitmasks, across the
    65535 to 0 wrap. What is decoded is what was asked for. */
module RtcpNack {
  import Arith
  import opened Bits
  import opened Serial

  const MAX_RECORDS := 16
  const MAX_EXPAND := 0x1_0000

  function Low16(n: int): u16 { n % 0x1_0000 }

  /** The sequence number after s. */
  function Next(s: u16): u16 { if s == 0xFFFF then 0 else s + 1 }

  /** The low 16 bits of each value. */
  function Narrow(missing: seq<nat>): (r: seq<u16>)
    ensures |r| == |missing|
  {
    seq<u16>(|missing|, i requires 0 <= i < |missing| => Low16(missing[i]))
  }

  // ---- ranges ----

  /** start and `extra` more after it. */
  datatype NackRange = NackRange(start: u16, extra: u16)

  function Expand(r: NackRange): seq<u16> { seq<u16>(r.extra + 1, i => Low16(r.start + i)) }

  function ExpandAll(rs: seq<NackRange>): seq<u16> {
    if rs == [] then [] else ExpandAll(rs[..|rs| - 1]) + Expand(rs[|rs| - 1])
  }

  /** The records of all the packets, in order. */
  function Flat<T>(pkts: seq<seq<T>>): seq<T> {
    if pkts == [] then [] else Flat(pkts[..|pkts| - 1]) + pkts[|pkts| - 1]
  }

  lemma FlatAppend<T>(pkts: seq<seq<T>>, p: seq<T>)
    ensures Flat(pkts + [p]) == Flat(pkts) + p
  {
    assert (pkts + [p])[..|pkts|] == pkts;
  }

  lemma ExpandAppend(rs: seq<NackRange>, r: NackRange)
    ensures ExpandAll(rs + [r]) == ExpandAll(rs) + Expand(r)
  {
    assert (rs + [r])[..|rs|] == rs;
  }

  lemma {:induction false} ExpandConcat(a: seq<NackRange>, b: seq<NackRange>)
    ensures ExpandAll(a + b) == ExpandAll(a) + ExpandAll(b)
    decreases |b|
  {
    hide Expand, ExpandAll;
    NothingYet();
    if b == [] {
      assert a + b == a;
    } else {
      var n := |b| - 1;
      ExpandConcat(a, b[..n]);
      assert a + b == (a + b[..n]) + [b[n]] && b == b[..n] + [b[n]];
      ExpandAppend(a + b[..n], b[n]);
      ExpandAppend(b[..n], b[n]);
    }
  }

  /** One more consecutive number lengthens the record. */
  lemma ExpandLonger(r: NackRange)
    requires r.extra < 0xFFFF
    ensures Expand(r.(extra := r.extra + 1)) == Expand(r) + [Low16(r.start + r.extra + 1)]
  {
  }

  function End(r: NackRange): u16 { Low16(r.start + r.extra) }

  lemma Successor(r: NackRange)
    ensures Next(End(r)) == Low16(r.start + r.extra + 1)
  {
  }

  /** Packets hold 1 to 16 records, and only the last may be short. */
  predicate WellPacked<T>(pkts: seq<seq<T>>) {
    && (forall i :: 0 <= i < |pkts| ==> 1 <= |pkts[i]| <= MAX_RECORDS)
    && (forall i :: 0 <= i < |pkts| - 1 ==> |pkts[i]| == MAX_RECORDS)
  }

  /** No record could have been joined to the one before it. */
  predicate Maximal(rs: seq<NackRange>) {
    forall i :: 0 < i < |rs| ==> rs[i].start != Next(End(rs[i - 1])) || rs[i - 1].extra == 0xFFFF
  }

  /** Pack into range records. What the records stand for, in order, is exactly the
      list given, whatever it is. */
  method EncodeRange(missing: seq<nat>) returns (pkts: seq<seq<NackRange>>)
    ensures ExpandAll(Flat(pkts)) == Narrow(missing)
    ensures WellPacked(pkts) && Maximal(Flat(pkts))
  {
    hide Expand, ExpandAll, Flat, Low16;
    pkts := [];
    NothingYet();
    if |missing| == 0 {
      return;
    }
    var ranges: seq<NackRange> := [];
    var cur := NackRange(Low16(missing[0]), 0);
    var last := Low16(missing[0]);
    ghost var all := Narrow(missing);
    ghost var done: seq<NackRange> := [];
    StartRecord([], all, 0, cur);
    for i := 1 to |missing|
      invariant done == Flat(pkts) + ranges && |ranges| < 16
      invariant forall j :: 0 <= j < |pkts| ==> |pkts[j]| == 16
      invariant ExpandAll(done + [cur]) == all[..i] && Maximal(done + [cur])
      invariant last == End(cur)
    {
      var s := Low16(missing[i]);
      if s == Next(last) && cur.extra < 0xFFFF {
        GrowRecord(done, all, i, cur);
        cur := cur.(extra := cur.extra + 1);
      } else {
        FlatAppend(pkts, ranges + [cur]);
        ranges := ranges + [cur];
        done := done + [cur];
        if |ranges| == 16 {
          pkts, ranges := pkts + [ranges], [];
        }
        cur := NackRange(s, 0);
        StartRecord(done, all, i, cur);
      }
      last := s;
    }
    FlatAppend(pkts, ranges + [cur]);
    ranges := ranges + [cur];
    if |ranges| == 16 {
      pkts, ranges := pkts + [ranges], [];
    }
    if |ranges| > 0 {
      pkts := pkts + [ranges];
    }
    assert done + [cur] == Flat(pkts) && all[..|all|] == all;
  }

  lemma NothingYet()
    ensures ExpandAll([]) == [] && Flat<NackRange>([]) == [] && Flat<NackPair>([]) == []
  {
  }

  lemma StartRecord(done: seq<NackRange>, all: seq<u16>, i: nat, cur: NackRange)
    requires i < |all| && ExpandAll(done) == all[..i] && cur == NackRange(all[i], 0)
    ensures ExpandAll(done + [cur]) == all[..i + 1] && End(cur) == all[i]
  {
    hide ExpandAll;
    ExpandAppend(done, cur);
    ExpandOne(cur.start);
    assert all[..i + 1] == all[..i] + [all[i]];
  }

  lemma ExpandOne(start: u16)
    ensures Expand(NackRange(start, 0)) == [start] && End(NackRange(start, 0)) == start
  {
    hide Low16;
    LowSame(start);
    assert Expand(NackRange(start, 0))[0] == Low16(start + 0);
  }

  lemma GrowRecord(done: seq<NackRange>, all: seq<u16>, i: nat, cur: NackRange)
    requires i < |all| && cur.extra < 0xFFFF && ExpandAll(done + [cur]) == all[..i]
    requires all[i] == Next(End(cur)) && Maximal(done + [cur])
    ensures var r := cur.(extra := cur.extra + 1);
      ExpandAll(done + [r]) == all[..i + 1] && End(r) == all[i] && Maximal(done + [r])
  {
    var r := cur.(extra := cur.extra + 1);
    ExpandAppend(done, cur);
    ExpandAppend(done, r);
    ExpandLonger(cur);
    Successor(cur);
    assert all[..i + 1] == all[..i] + [all[i]];
    assert forall k :: 0 <= k < |done| ==> (done + [cur])[k] == (done + [r])[k];
  }

  /** Append the numbers of one packet to dst, as many as the cap lets one packet ask
      for. */
  method AppendMissing(dst: seq<nat>, ranges: seq<NackRange>) returns (r: seq<nat>)
    ensures r == dst + Capped(ExpandAll(ranges))
  {
    hide Low16, ExpandAll;
    r := dst;
    ghost var made: seq<u16> := [];
    var appended := 0;
    NothingYet();
    for k := 0 to |ranges|
      invariant made == ExpandAll(ranges[..k]) && r == dst + made && appended == |made| <= MAX_EXPAND
    {
      var rg := ranges[k];
      var s := rg.start;
      ExpandAppend(ranges[..k], rg);
      assert ranges[..k] + [rg] == ranges[..k + 1];
      ghost var before := made;
      LowSame(rg.start);
      for i := 0 to rg.extra + 1
        invariant made == before + Expand(rg)[..i] && r == dst + made && appended == |made| <= MAX_EXPAND
        invariant s == Low16(rg.start + i)
      {
        if appended >= MAX_EXPAND {
          PrefixOf(ranges, k + 1);
          return;
        }
        r := r + [s];
        made := made + [s];
        assert Expand(rg)[..i + 1] == Expand(rg)[..i] + [s];
        appended := appended + 1;
        NextLow(rg.start + i);
        s := Next(s);
      }
      assert Expand(rg)[..rg.extra + 1] == Expand(rg);
    }
    assert ranges[..|ranges|] == ranges;
  }

  lemma LowSame(s: u16)
    ensures Low16(s) == s
  {
  }

  lemma NextLow(n: int)
    ensures Next(Low16(n)) == Low16(n + 1)
  {
  }

  lemma PrefixOf(ranges: seq<NackRange>, k: nat)
    requires k <= |ranges|
    ensures ExpandAll(ranges[..k]) <= ExpandAll(ranges)
  {
    ExpandConcat(ranges[..k], ranges[k..]);
    assert ranges[..k] + ranges[k..] == ranges;
  }

  /** Decoding every packet of an encoded list of up to 2^16 numbers gives the list. */
  lemma {:induction false} RangeDecodes(pkts: seq<seq<NackRange>>)
    requires |ExpandAll(Flat(pkts))| <= MAX_EXPAND
    ensures forall i :: 0 <= i < |pkts| ==> |ExpandAll(pkts[i])| <= MAX_EXPAND
    ensures ExpandAll(Flat(pkts)) == Each(pkts)
  {
    if pkts != [] {
      var n := |pkts| - 1;
      FlatAppend(pkts[..n], pkts[n]);
      assert pkts[..n] + [pkts[n]] == pkts;
      ExpandConcat(Flat(pkts[..n]), pkts[n]);
      RangeDecodes(pkts[..n]);
    }
  }

  /** What the packets decode to, one after another. */
  function Each(pkts: seq<seq<NackRange>>): seq<u16> {
    if pkts == [] then [] else Each(pkts[..|pkts| - 1]) + ExpandAll(pkts[|pkts| - 1])
  }

  // ---- bitmasks ----

  /** pid, and pid + i + 1 for each set bit i. */
  datatype NackPair = NackPair(pid: u16, blp: nat)

  function BitList(p: NackPair, n: nat): seq<u16> {
    if n == 0 then [] else BitList(p, n - 1) + (if Bit(p.blp, n - 1) then [Low16(p.pid + n)] else [])
  }

  function PairSeqs(p: NackPair): seq<u16> { [p.pid] + BitList(p, 16) }

  function PairsAll(ps: seq<NackPair>): seq<u16> {
    if ps == [] then [] else PairsAll(ps[..|ps| - 1]) + PairSeqs(ps[|ps| - 1])
  }

  lemma PairsAppend(ps: seq<NackPair>, p: NackPair)
    ensures PairsAll(ps + [p]) == PairsAll(ps) + PairSeqs(p)
  {
    assert (ps + [p])[..|ps|] == ps;
  }

  function Ahead(a: u16, b: u16): u16 { (b - a) % 0x1_0000 }

  /** Each number is ahead of the one before it, by less than half the circle. */
  predicate Ascending(s: seq<u16>) {
    forall i :: 0 < i < |s| ==> 1 <= Ahead(s[i - 1], s[i]) < 0x8000
  }

  /** Setting a bit above all others appends one number. */
  lemma {:induction false} BitListSet(p: NackPair, j: nat, n: nat)
    requires forall i :: j <= i ==> !Bit(p.blp, i)
    ensures BitList(p.(blp := SetBit(p.blp, j)), n) == BitList(p, n) + (if j < n then [Low16(p.pid + j + 1)] else [])
    decreases n
  {
    hide Bit, SetBit;
    if n > 0 {
      BitListSet(p, j, n - 1);
      BitSet(p.blp, j, n - 1);
    }
  }

  lemma {:induction false} BitListNone(pid: u16, n: nat)
    ensures BitList(NackPair(pid, 0), n) == []
  {
    if n > 0 {
      BitListNone(pid, n - 1);
      BitZero(n - 1);
    }
  }

  /** Bit i asks for x. */
  predicate Asks(p: NackPair, i: nat, x: u16) { Bit(p.blp, i) && x == Low16(p.pid + i + 1) }

  lemma {:induction false} BitListHas(p: NackPair, n: nat, x: u16)
    ensures x in BitList(p, n) <==> exists i :: 0 <= i < n && Asks(p, i, x)
    decreases n
  {
    hide Bit;
    if n > 0 {
      BitListHas(p, n - 1, x);
      assert x in BitList(p, n) <==> x in BitList(p, n - 1) || Asks(p, n - 1, x);
    }
  }

  lemma PairHas(p: NackPair, j: nat, x: u16)
    requires j < 16
    ensures x in PairSeqs(p.(blp := SetBit(p.blp, j))) <==> x in PairSeqs(p) || x == Low16(p.pid + j + 1)
  {
    hide Bit, SetBit, Low16, BitList;
    var q := p.(blp := SetBit(p.blp, j));
    BitListHas(p, 16, x);
    BitListHas(q, 16, x);
    forall i | 0 <= i < 16 ensures Asks(q, i, x) <==> Asks(p, i, x) || (i == j && x == Low16(p.pid + j + 1)) {
      BitSet(p.blp, j, i);
    }
    assert Asks(q, j, x) <==> x == Low16(p.pid + j + 1);
  }

  lemma AheadLow(pid: u16, s: u16)
    ensures Low16(pid + Ahead(pid, s)) == s
  {
  }

  /** No bit of p at or above its last delta, so order is kept. */
  ghost predicate TopBit(p: NackPair, last: u16) {
    Ahead(p.pid, last) <= 16 && forall i :: Ahead(p.pid, last) <= i ==> !Bit(p.blp, i)
  }

  lemma StartPair(done: seq<NackPair>, all: seq<u16>, i: nat, cur: NackPair)
    requires i < |all| && cur == NackPair(all[i], 0)
    ensures PairsAll(done + [cur]) == PairsAll(done) + [all[i]] && TopBit(cur, all[i])
  {
    hide Bit;
    PairsAppend(done, cur);
    BitListNone(all[i], 16);
    forall k: nat ensures !Bit(0, k) { BitZero(k); }
  }

  /** A number up to 16 ahead of the pair's first joins it. */
  lemma JoinPair(done: seq<NackPair>, all: seq<u16>, i: nat, cur: NackPair)
    requires 0 < i < |all| && 1 <= Ahead(cur.pid, all[i]) <= 16
    ensures var r := cur.(blp := SetBit(cur.blp, Ahead(cur.pid, all[i]) - 1));
      && (Same(PairsAll(done + [cur]), all[..i]) ==> Same(PairsAll(done + [r]), all[..i + 1]))
      && (TopBit(cur, all[i - 1]) && 1 <= Ahead(all[i - 1], all[i]) < 0x8000 ==>
            PairsAll(done + [r]) == PairsAll(done + [cur]) + [all[i]] && TopBit(r, all[i]))
  {
    hide Bit, SetBit, BitList, Low16, Same;
    var d := Ahead(cur.pid, all[i]);
    var r := cur.(blp := SetBit(cur.blp, d - 1));
    PairsAppend(done, cur);
    PairsAppend(done, r);
    AheadLow(cur.pid, all[i]);
    forall x ensures x in PairsAll(done + [r]) <==> x in PairsAll(done + [cur]) || x == all[i] {
      PairHas(cur, d - 1, x);
    }
    assert all[..i + 1] == all[..i] + [all[i]];
    if Same(PairsAll(done + [cur]), all[..i]) {
      SameMore(PairsAll(done + [cur]), PairsAll(done + [r]), all[..i], all[i]);
    }
    if TopBit(cur, all[i - 1]) && 1 <= Ahead(all[i - 1], all[i]) < 0x8000 {
      AheadGrows(cur.pid, all[i - 1], all[i]);
      BitListSet(cur, d - 1, 16);
      forall k: nat | d <= k ensures !Bit(r.blp, k) { BitSet(cur.blp, d - 1, k); }
    }
  }

  lemma AheadGrows(pid: u16, a: u16, b: u16)
    requires Ahead(pid, a) <= 16 && 1 <= Ahead(a, b) < 0x8000 && Ahead(pid, b) <= 16
    ensures Ahead(pid, a) < Ahead(pid, b)
  {
  }

  /** Strictly ascending within half the circle, seen from the first. */
  predicate InSpan(s: seq<u16>) {
    && (forall i :: 0 <= i < |s| ==> Ahead(s[0], s[i]) < 0x8000)
    && (forall i, j :: 0 <= i < j < |s| ==> Ahead(s[0], s[i]) < Ahead(s[0], s[j]))
  }

  lemma AheadSub(base: u16, a: u16, b: u16)
    requires Ahead(base, a) <= Ahead(base, b)
    ensures Ahead(a, b) == Ahead(base, b) - Ahead(base, a)
  {
  }

  /** Pair k starts more than 16 beyond pair j, seen from base. */
  predicate Apart(ps: seq<NackPair>, base: u16) {
    forall j, k :: 0 <= j < k < |ps| ==> Ahead(base, ps[j].pid) + 16 < Ahead(base, ps[k].pid) < 0x8000
  }

  /** Pack into bitmasks. The numbers asked for are exactly those given; if they come
      in ascending circular order, they come back in that order. */
  method EncodePairs(missing: seq<nat>) returns (pairs: seq<NackPair>)
    ensures forall x :: x in PairsAll(pairs) <==> x in Narrow(missing)
    ensures Ascending(Narrow(missing)) ==> PairsAll(pairs) == Narrow(missing)
    ensures InSpan(Narrow(missing)) && |missing| > 0 ==> Apart(pairs, Low16(missing[0]))
  {
    hide Bit, SetBit, BitList, PairsAll, Low16, Ascending, InSpan, TopBit, Apart;
    pairs := [];
    NoPairs();
    if |missing| == 0 {
      return;
    }
    var cur := NackPair(Low16(missing[0]), 0);
    ghost var all := Narrow(missing);
    StartPair([], all, 0, cur);
    OneApart(cur, all[0]);
    assert all[..1] == [all[0]] && [] + [cur] == [cur];
    for i := 1 to |missing|
      invariant Same(PairsAll(pairs + [cur]), all[..i])
      invariant Ascending(all) ==> PairsAll(pairs + [cur]) == all[..i] && TopBit(cur, all[i - 1])
      invariant InSpan(all) ==> Apart(pairs + [cur], all[0]) && PidIn(cur, all, i)
    {
      var s := Low16(missing[i]);
      assert s == all[i] && all[..i + 1] == all[..i] + [s];
      AscendingAt(all, i);
      var d := Ahead(cur.pid, s);
      if 1 <= d <= 16 {
        JoinPair(pairs, all, i, cur);
        if InSpan(all) { ApartSame(pairs, cur, SetBit(cur.blp, d - 1), all[0]); }
        cur := cur.(blp := SetBit(cur.blp, d - 1));
      } else {
        if InSpan(all) { ApartMore(pairs, cur, all, i); }
        pairs := pairs + [cur];
        cur := NackPair(s, 0);
        StartPair(pairs, all, i, cur);
        SameMore(PairsAll(pairs), PairsAll(pairs + [cur]), all[..i], s);
      }
    }
    pairs := pairs + [cur];
    assert all[..|all|] == all;
  }

  /** The same numbers, in whatever order and however often. */
  ghost predicate Same(a: seq<u16>, b: seq<u16>) { forall x :: x in a <==> x in b }

  lemma SameMore(a: seq<u16>, a': seq<u16>, b: seq<u16>, s: u16)
    requires Same(a, b) && forall x :: x in a' <==> x in a || x == s
    ensures Same(a', b + [s])
  {
  }

  lemma OneApart(p: NackPair, base: u16)
    ensures Apart([p], base)
  {
  }

  lemma NoPairs()
    ensures PairsAll([]) == []
  {
  }

  lemma AscendingAt(all: seq<u16>, i: nat)
    requires 0 < i < |all|
    ensures Ascending(all) ==> 1 <= Ahead(all[i - 1], all[i]) < 0x8000
  {
  }

  /** The current pair starts at a number already seen. */
  predicate PidIn(p: NackPair, all: seq<u16>, i: nat)
    requires i <= |all|
  {
    exists j :: 0 <= j < i && all[j] == p.pid
  }

  lemma ApartSame(ps: seq<NackPair>, p: NackPair, blp: nat, base: u16)
    requires Apart(ps + [p], base)
    ensures Apart(ps + [p.(blp := blp)], base)
  {
    var qs, rs := ps + [p], ps + [p.(blp := blp)];
    forall j, k | 0 <= j < k < |rs| ensures Ahead(base, rs[j].pid) + 16 < Ahead(base, rs[k].pid) < 0x8000 {
      assert rs[j].pid == qs[j].pid && rs[k].pid == qs[k].pid;
    }
  }

  lemma ApartMore(ps: seq<NackPair>, p: NackPair, all: seq<u16>, i: nat)
    requires i < |all| && InSpan(all) && Apart(ps + [p], all[0]) && PidIn(p, all, i)
    requires !(1 <= Ahead(p.pid, all[i]) <= 16)
    ensures Apart(ps + [p] + [NackPair(all[i], 0)], all[0])
  {
    var j :| 0 <= j < i && all[j] == p.pid;
    AheadSub(all[0], all[j], all[i]);
    var qs := ps + [p] + [NackPair(all[i], 0)];
    forall a, b | 0 <= a < b < |qs| ensures Ahead(all[0], qs[a].pid) + 16 < Ahead(all[0], qs[b].pid) < 0x8000 {
      assert (ps + [p])[|ps|] == p;
      if b <= |ps| {
        assert qs[a] == (ps + [p])[a] && qs[b] == (ps + [p])[b];
      } else if a < |ps| {
        assert qs[a] == (ps + [p])[a];
        assert Ahead(all[0], (ps + [p])[a].pid) + 16 < Ahead(all[0], (ps + [p])[|ps|].pid);
      }
    }
  }

  /** Split the pairs into packets. */
  method EncodeBitmask(missing: seq<nat>) returns (pkts: seq<seq<NackPair>>)
    ensures WellPacked(pkts)
    ensures forall x :: x in PairsAll(Flat(pkts)) <==> x in Narrow(missing)
    ensures Ascending(Narrow(missing)) ==> PairsAll(Flat(pkts)) == Narrow(missing)
    ensures InSpan(Narrow(missing)) && |missing| > 0 ==> Apart(Flat(pkts), Low16(missing[0]))
  {
    hide PairsAll, Flat, Low16, Ascending, InSpan, Apart, Narrow;
    pkts := [];
    NothingYet();
    var pairs := EncodePairs(missing);
    for i := 0 to |pairs|
      invariant WellPacked(pkts) && Flat(pkts) == pairs[..i]
    {
      if |pkts| == 0 || |pkts[|pkts| - 1]| == 16 {
        FlatAppend(pkts, [pairs[i]]);
        pkts := pkts + [[pairs[i]]];
      } else {
        var n := |pkts| - 1;
        FlatLast(pkts, pairs[i]);
        pkts := pkts[n := pkts[n] + [pairs[i]]];
      }
      assert pairs[..i + 1] == pairs[..i] + [pairs[i]];
    }
    assert pairs[..|pairs|] == pairs;
  }

  lemma FlatLast<T>(pkts: seq<seq<T>>, x: T)
    requires |pkts| > 0
    ensures Flat(pkts[|pkts| - 1 := pkts[|pkts| - 1] + [x]]) == Flat(pkts) + [x]
  {
    var n := |pkts| - 1;
    assert pkts[n := pkts[n] + [x]][..n] == pkts[..n];
  }

  /** A list cut at the cap. */
  function Capped(all: seq<u16>): seq<u16> { if |all| <= MAX_EXPAND then all else all[..MAX_EXPAND] }

  /** dst with as much of `all` appended as the cap on the whole leaves room for. */
  function Filled(dst: seq<nat>, all: seq<u16>): seq<nat> {
    if |dst| >= MAX_EXPAND then dst
    else if |dst| + |all| <= MAX_EXPAND then dst + all
    else dst + all[..MAX_EXPAND - |dst|]
  }

  /** Packets appended one after another share the cap. */
  lemma FilledTwice(dst: seq<nat>, a: seq<u16>, b: seq<u16>)
    ensures Filled(Filled(dst, a), b) == Filled(dst, a + b)
  {
  }

  /** Append the numbers of one pair, stopping exactly at the cap. */
  method AppendPair(dst: seq<nat>, f: NackPair) returns (r: seq<nat>)
    requires |dst| < MAX_EXPAND
    ensures r == Filled(dst, PairSeqs(f))
  {
    hide Bit, Low16;
    r := dst + [f.pid];
    ghost var made := [f.pid];
    for i := 0 to 16
      invariant made == [f.pid] + BitList(f, i) && r == dst + made && |r| <= MAX_EXPAND
    {
      BitPrefix(f, i + 1, 16);
      if Bit(f.blp, i) {
        if |r| >= MAX_EXPAND {
          assert made <= PairSeqs(f);
          return;
        }
        r := r + [Low16(f.pid + i + 1)];
        made := made + [Low16(f.pid + i + 1)];
      }
    }
  }

  /** Append the numbers of one packet to dst; the cap counts what was there. */
  method AppendPairs(dst: seq<nat>, fcis: seq<NackPair>) returns (r: seq<nat>)
    ensures r == Filled(dst, PairsAll(fcis))
  {
    hide PairsAll, PairSeqs, Filled;
    r := dst;
    NoPairs();
    FilledNothing(dst);
    for k := 0 to |fcis|
      invariant r == Filled(dst, PairsAll(fcis[..k]))
    {
      if |r| >= MAX_EXPAND {
        PairsPrefix(fcis, k);
        FullStays(dst, PairsAll(fcis[..k]), PairsAll(fcis));
        return;
      }
      PairsAppend(fcis[..k], fcis[k]);
      assert fcis[..k] + [fcis[k]] == fcis[..k + 1];
      FilledTwice(dst, PairsAll(fcis[..k]), PairSeqs(fcis[k]));
      r := AppendPair(r, fcis[k]);
    }
    assert fcis[..|fcis|] == fcis;
  }

  lemma FilledNothing(dst: seq<nat>)
    ensures Filled(dst, []) == dst
  {
  }

  lemma FullStays(dst: seq<nat>, a: seq<u16>, b: seq<u16>)
    requires |Filled(dst, a)| >= MAX_EXPAND && a <= b
    ensures Filled(dst, b) == Filled(dst, a)
  {
  }

  lemma {:induction false} BitPrefix(p: NackPair, m: nat, n: nat)
    requires m <= n
    ensures BitList(p, m) <= BitList(p, n)
    decreases n
  {
    hide Bit, Low16;
    if m < n { BitPrefix(p, m, n - 1); }
  }

  lemma {:induction false} PairsPrefix(ps: seq<NackPair>, k: nat)
    requires k <= |ps|
    ensures PairsAll(ps[..k]) <= PairsAll(ps)
    decreases |ps|
  {
    if k < |ps| {
      PairsPrefix(ps[..|ps| - 1], k);
      assert ps[..|ps| - 1][..k] == ps[..k];
    } else {
      assert ps[..k] == ps;
    }
  }

  /** The sixteen pairs of a packet expand far below the cap. */
  lemma {:induction false} PacketUncapped(ps: seq<NackPair>)
    ensures |PairsAll(ps)| <= 17 * |ps|
    ensures |ps| <= MAX_RECORDS ==> Capped(PairsAll(ps)) == PairsAll(ps)
  {
    if ps != [] {
      PacketUncapped(ps[..|ps| - 1]);
      BitListShort(ps[|ps| - 1], 16);
    }
  }

  lemma {:induction false} BitListShort(p: NackPair, n: nat)
    ensures |BitList(p, n)| <= n
  {
    if n > 0 { BitListShort(p, n - 1); }
  }

  // ---- no packing asks with fewer records ----

  /** The record of ps that asks for x. */
  function PairFor(ps: seq<NackPair>, x: u16): (j: nat)
    requires x in PairsAll(ps)
    ensures j < |ps| && x in PairSeqs(ps[j])
  {
    var n := |ps| - 1;
    if x in PairSeqs(ps[n]) then n else PairFor(ps[..n], x)
  }

  lemma PairReach(p: NackPair, x: u16)
    requires x in PairSeqs(p)
    ensures Ahead(p.pid, x) <= 16
  {
    hide Bit, BitList;
    BitListHas(p, 16, x);
    if x != p.pid {
      var i :| 0 <= i < 16 && Asks(p, i, x);
      LowAhead(p.pid, i + 1);
    }
  }

  lemma LowAhead(pid: u16, d: nat)
    requires d < 0x1_0000
    ensures Ahead(pid, Low16(pid + d)) == d
  {
  }

  lemma FarApart(base: u16, p: u16, a: u16, b: u16)
    requires Ahead(base, a) + 16 < Ahead(base, b) < 0x8000
    ensures !(Ahead(p, a) <= 16 && Ahead(p, b) <= 16)
  {
  }

  /** Pairs more than 16 apart cannot be replaced by fewer that ask for the same. */
  lemma PairsMinimal(ps: seq<NackPair>, base: u16, other: seq<NackPair>)
    requires Apart(ps, base)
    requires forall k :: 0 <= k < |ps| ==> ps[k].pid in PairsAll(other)
    ensures |ps| <= |other|
  {
    hide PairsAll, PairSeqs;
    var owners := seq(|ps|, k requires 0 <= k < |ps| => PairFor(other, ps[k].pid));
    forall i, j | 0 <= i < j < |owners| ensures owners[i] != owners[j] {
      PairReach(other[owners[i]], ps[i].pid);
      PairReach(other[owners[j]], ps[j].pid);
      FarApart(base, other[owners[i]].pid, ps[i].pid, ps[j].pid);
    }
    Arith.Pigeonhole(owners, |other|);
  }

  lemma {:induction false} PidAsked(ps: seq<NackPair>, k: nat)
    requires k < |ps|
    ensures ps[k].pid in PairsAll(ps)
  {
    if k < |ps| - 1 { PidAsked(ps[..|ps| - 1], k); }
  }

  /** For an ascending list within half the circle, no list of pairs that asks for the
      same numbers is shorter than the one EncodeBitmask makes. */
  lemma BitmaskMinimal(ps: seq<NackPair>, all: seq<u16>, other: seq<NackPair>)
    requires |all| > 0 && Apart(ps, all[0])
    requires forall x :: x in PairsAll(ps) <==> x in all
    requires forall x :: x in PairsAll(other) <==> x in all
    ensures |ps| <= |other|
  {
    hide PairsAll;
    forall k | 0 <= k < |ps| ensures ps[k].pid in PairsAll(other) { PidAsked(ps, k); }
    PairsMinimal(ps, all[0], other);
  }

  // ---- ranges, likewise ----

  function RangeFor(rs: seq<NackRange>, x: u16): (j: nat)
    requires x in ExpandAll(rs)
    ensures j < |rs| && x in Expand(rs[j])
  {
    var n := |rs| - 1;
    if x in Expand(rs[n]) then n else RangeFor(rs[..n], x)
  }

  /** What record k starts with stands at its place in the list, right after the end
      of the record before it. */
  lemma RecordPlace(rs: seq<NackRange>, k: nat) returns (at: nat)
    requires k < |rs|
    ensures at == |ExpandAll(rs[..k])| < |ExpandAll(rs)| && ExpandAll(rs)[at] == rs[k].start
    ensures k == 0 ==> at == 0
    ensures k > 0 ==> at > 0 && ExpandAll(rs)[at - 1] == End(rs[k - 1])
  {
    var (before, from) := (ExpandAll(rs[..k]), ExpandAll(rs[k..]));
    at := |before|;
    ExpandConcat(rs[..k], rs[k..]);
    assert rs[..k] + rs[k..] == rs;
    FirstOf(rs[k..]);
    if k > 0 {
      ExpandAppend(rs[..k - 1], rs[k - 1]);
      assert rs[..k] == rs[..k - 1] + [rs[k - 1]];
      LastOf(rs[k - 1]);
    }
  }

  lemma {:induction false} FirstOf(rs: seq<NackRange>)
    requires rs != []
    ensures ExpandAll(rs) != [] && ExpandAll(rs)[0] == rs[0].start
  {
    hide Low16;
    if |rs| == 1 {
      LowSame(rs[0].start);
      assert Expand(rs[0])[0] == Low16(rs[0].start + 0);
    } else {
      FirstOf(rs[..|rs| - 1]);
    }
  }

  lemma LastOf(r: NackRange)
    ensures |Expand(r)| == r.extra + 1 && Expand(r)[r.extra] == End(r)
  {
  }

  /** The number before a maximal record is not asked for. */
  lemma NotBefore(rs: seq<NackRange>, all: seq<u16>, k: nat)
    requires ExpandAll(rs) == all && InSpan(all) && Maximal(rs) && k < |rs|
    ensures Low16(rs[k].start - 1) !in all
  {
    hide ExpandAll, Expand;
    var at := RecordPlace(rs, k);
    var x := Low16(rs[k].start - 1);
    if x in all {
      var j :| 0 <= j < |all| && all[j] == x;
      AheadBefore(all[0], rs[k].start);
      if k > 0 {
        ShortRun(rs, all, k - 1);
        BetweenNone(all, at, j);
      }
    }
  }

  lemma AheadBefore(base: u16, s: u16)
    ensures s != base ==> Ahead(base, Low16(s - 1)) == Ahead(base, s) - 1
    ensures s == base ==> Ahead(base, Low16(s - 1)) == 0xFFFF
    ensures Next(Low16(s - 1)) == s
  {
  }

  /** Nothing lies between two neighbours. */
  lemma BetweenNone(all: seq<u16>, at: nat, j: nat)
    requires InSpan(all) && 0 < at < |all| && j < |all| && all[at - 1] != all[j]
    ensures Ahead(all[0], all[j]) != Ahead(all[0], all[at]) - 1
  {
    AheadInjective(all[0], all[at - 1], all[j]);
  }

  lemma AheadInjective(base: u16, a: u16, b: u16)
    ensures Ahead(base, a) == Ahead(base, b) <==> a == b
  {
  }

  /** Within half the circle no record fills the circle. */
  lemma ShortRun(rs: seq<NackRange>, all: seq<u16>, k: nat)
    requires ExpandAll(rs) == all && InSpan(all) && k < |rs|
    ensures rs[k].extra < 0xFFFF
  {
    if rs[k].extra == 0xFFFF {
      hide Expand;
      Inside(rs, k);
      SpanLength(all);
      LastOf(rs[k]);
    }
  }

  lemma {:induction false} Inside(rs: seq<NackRange>, k: nat)
    requires k < |rs|
    ensures |Expand(rs[k])| <= |ExpandAll(rs)| && forall x :: x in Expand(rs[k]) ==> x in ExpandAll(rs)
  {
    hide Expand;
    if k < |rs| - 1 { Inside(rs[..|rs| - 1], k); }
  }

  lemma SpanLength(all: seq<u16>)
    requires InSpan(all)
    ensures |all| <= 0x8000
  {
    var f: seq<nat> := seq<nat>(|all|, i requires 0 <= i < |all| => Ahead(all[0], all[i]));
    Arith.Pigeonhole(f, 0x8000);
  }

  /** A record inside the list that asks for a maximal record's start starts there. */
  lemma StartsThere(o: NackRange, s: u16, all: seq<u16>)
    requires s in Expand(o) && (forall x :: x in Expand(o) ==> x in all) && Low16(s - 1) !in all
    ensures o.start == s
  {
    var i :| 0 <= i <= o.extra && Expand(o)[i] == s;
    if i > 0 {
      LowBefore(o.start + i);
      InExpand(o, i - 1);
    } else {
      LowSame(o.start);
    }
  }

  lemma InExpand(r: NackRange, i: nat)
    requires i <= r.extra
    ensures Low16(r.start + i) in Expand(r)
  {
    assert Expand(r)[i] == Low16(r.start + i);
  }

  lemma LowBefore(n: int)
    ensures Low16(Low16(n) - 1) == Low16(n - 1)
  {
  }

  lemma OwnerStart(rs: seq<NackRange>, all: seq<u16>, other: seq<NackRange>, k: nat)
    requires ExpandAll(rs) == all && InSpan(all) && Maximal(rs) && k < |rs|
    requires forall x :: x in ExpandAll(other) <==> x in all
    ensures rs[k].start in ExpandAll(other) && other[RangeFor(other, rs[k].start)].start == rs[k].start
  {
    hide ExpandAll, Expand, InSpan, Maximal, RangeFor;
    var at := RecordPlace(rs, k);
    assert all[at] in all;
    NotBefore(rs, all, k);
    Inside(other, RangeFor(other, rs[k].start));
    StartsThere(other[RangeFor(other, rs[k].start)], rs[k].start, all);
  }

  /** For an ascending list within half the circle, no list of ranges that asks for the
      same numbers is shorter than the one EncodeRange makes. */
  lemma RangeMinimal(rs: seq<NackRange>, all: seq<u16>, other: seq<NackRange>)
    requires ExpandAll(rs) == all && InSpan(all) && Maximal(rs)
    requires forall x :: x in ExpandAll(other) <==> x in all
    ensures |rs| <= |other|
  {
    hide ExpandAll, Expand, InSpan, Maximal, RangeFor;
    forall k | 0 <= k < |rs|
      ensures rs[k].start in ExpandAll(other) && other[RangeFor(other, rs[k].start)].start == rs[k].start
    {
      OwnerStart(rs, all, other, k);
    }
    var owners := seq(|rs|, k requires 0 <= k < |rs| => RangeFor(other, rs[k].start));
    forall i, j | 0 <= i < j < |owners| ensures owners[i] != owners[j] { StartsDiffer(rs, all, i, j); }
    Arith.Pigeonhole(owners, |other|);
  }

  lemma StartsDiffer(rs: seq<NackRange>, all: seq<u16>, i: nat, j: nat)
    requires ExpandAll(rs) == all && InSpan(all) && i < j < |rs|
    ensures rs[i].start != rs[j].start
  {
    hide Expand;
    var a := RecordPlace(rs, i);
    var b := RecordPlace(rs, j);
    PlacesGrow(rs, i, j);
  }

  lemma {:induction false} PlacesGrow(rs: seq<NackRange>, i: nat, j: nat)
    requires i < j <= |rs|
    ensures |ExpandAll(rs[..i])| < |ExpandAll(rs[..j])|
    decreases j
  {
    ExpandAppend(rs[..j - 1], rs[j - 1]);
    assert rs[..j] == rs[..j - 1] + [rs[j - 1]];
    LastOf(rs[j - 1]);
    if i < j - 1 { PlacesGrow(rs, i, j - 1); }
  }
}
