/** What peeling does to genuine input: every rebuilt packet is the one sent, and the
    packets held afterwards are the least set closed under the one-missing rule. */
module FecPeeling {
  import opened Arith
  import opened Serial
  import opened Bits
  import opened FecCode
  import opened FecDecoder

  // ---- absent members ----

  lemma {:induction false} AbsentWithin(ms: seq<u32>, have: set<u32>)
    ensures forall k :: k in Absent(ms, have) <==> k in ms && k !in have
    ensures |Absent(ms, have)| <= |ms|
  {
    if ms != [] {
      AbsentWithin(ms[..|ms| - 1], have);
      assert ms == ms[..|ms| - 1] + [ms[|ms| - 1]];
    }
  }

  lemma {:induction false} AbsentNone(ms: seq<u32>, have: set<u32>)
    requires forall k :: k in ms ==> k in have
    ensures Absent(ms, have) == []
  {
    if ms != [] { AbsentNone(ms[..|ms| - 1], have); }
  }

  /** Holding more can only remove absent members. */
  lemma {:induction false} AbsentShrinks(ms: seq<u32>, have: set<u32>, more: set<u32>)
    requires have <= more
    ensures |Absent(ms, more)| <= |Absent(ms, have)|
    ensures (forall k :: k in Absent(ms, have) ==> k !in more) ==> Absent(ms, more) == Absent(ms, have)
  {
    if ms != [] {
      var n := |ms| - 1;
      AbsentShrinks(ms[..n], have, more);
      if forall k :: k in Absent(ms, have) ==> k !in more {
        assert forall k :: k in Absent(ms[..n], have) ==> k in Absent(ms, have);
        if ms[n] !in have { assert ms[n] in Absent(ms, have); }
      }
    }
  }

  /** If one member is absent, any larger holding lacks exactly it, or nothing. */
  lemma OneAbsent(ms: seq<u32>, have: set<u32>, more: set<u32>)
    requires have <= more && |Absent(ms, have)| == 1
    ensures var k := Absent(ms, have)[0]; Absent(ms, more) == if k in more then [] else [k]
  {
    AbsentShrinks(ms, have, more);
    AbsentWithin(ms, have);
    AbsentWithin(ms, more);
    var k := Absent(ms, have)[0];
    assert Absent(ms, have) == [k];
    if k in more { AbsentNone(ms, more); }
  }

  // ---- the stream seen from the newest packet ----

  /** Sequence numbers read as positions near `last`, the newest packet seen. */
  datatype View = View(st: Stream, last: int, size: nat) {
    function Pos(k: u32): int { last + Distance(st.Key(last), k) }

    predicate Valid() {
      forall p :: 0 <= p < |st.sent| ==> Fits(st.sent[p], size)
    }

    predicate Sent(k: u32) { st.Has(Pos(k)) }

    function Orig(k: u32): Media
      requires Sent(k)
    {
      st.sent[Pos(k)]
    }
  }

  predicate Genuine(v: View, f: Stored) {
    && v.st.HasGroup(v.Pos(f.base), f.stride, f.count)
    && f.Sum(v.size) == GroupSum(v.st, v.Pos(f.base), f.stride, f.count, v.size)
  }

  /** What the window holds is what was sent. */
  predicate Sound(v: View, d: Decoder) {
    forall k :: k in d.media && d.InWindow(k) ==> v.Sent(k) && d.media[k].media == v.Orig(k)
  }

  predicate Resolved(d: Decoder, f: Stored) { Absent(f.Members(), d.media.Keys) == [] }

  predicate StoredOk(v: View, d: Decoder, f: Stored) {
    && d.cfg.GeometryOk(f.stride, f.count)
    && (d.Eligible(f) ==> Genuine(v, f))
    && (d.Eligible(f) && f.done ==> Resolved(d, f))
  }

  /** Genuine input, ready to be peeled. */
  predicate Ready(v: View, d: Decoder) {
    && v.Valid() && d.cfg.Valid() && d.size == v.size && d.lastSeq == v.st.Key(v.last)
    && Sound(v, d)
    && forall i :: 0 <= i < |d.fecs| ==> StoredOk(v, d, d.fecs[i])
  }

  // ---- geometry of an eligible group ----

  /** Keys agree exactly when positions differ by a multiple of the space. */
  lemma KeyShift(st: Stream, p: int, n: int)
    ensures st.Key(p + n) == Plus(st.Key(p), n)
  {
    assert (st.isn + p + n) % 0x1_0000_0000 == ((st.isn + p) % 0x1_0000_0000 + n) % 0x1_0000_0000;
  }

  /** In an eligible group, offset n from the base is a packet in the window. */
  lemma EligibleAt(d: Decoder, f: Stored, n: nat)
    requires d.cfg.Valid() && d.cfg.GeometryOk(f.stride, f.count) && d.Eligible(f) && n <= Mul(f.count - 1, f.stride)
    ensures d.InWindow(Plus(f.base, n))
    ensures Distance(d.lastSeq, Plus(f.base, n)) == Distance(d.lastSeq, f.base) + n
    ensures d.InWindow(f.base)
  {
    hide MatrixConfig.Window, MatrixConfig.Matrix, MatrixConfig.Valid, MatrixConfig.GeometryOk, Mul;
    WindowBound(d.cfg);
    GroupSpan(d.cfg, f.stride, f.count);
    var (w: int, span) := (d.cfg.Window(), Mul(f.count - 1, f.stride));
    EligibleOffsets(d.lastSeq, w, f.base, span, n);
  }

  lemma EligibleOffsets(last: u32, w: nat, base: u32, span: nat, n: nat)
    requires w <= 19028 && span < w && n <= span
    requires Distance(Plus(last, 0 - w), base) >= 0 && Distance(last, Plus(base, span)) <= 0
    ensures Fwd(Plus(base, n), last) <= w && Fwd(base, last) <= w
    ensures Distance(last, Plus(base, n)) == Distance(last, base) + n
  {
    hide Plus, Distance, Fwd;
    var o := Distance(Plus(last, 0 - w), base);
    PlusDistance(Plus(last, 0 - w), base);
    PlusPlus(last, 0 - w, o);
    PlusPlus(last, o - w, span);
    PlusPlus(last, o - w, n);
    DistancePlus(last, o - w + span);
    DistancePlus(last, o - w + n);
    DistancePlus(last, o - w);
    FwdBack(last, w - o - n);
    FwdBack(last, w - o);
  }

  lemma MemberAt(v: View, d: Decoder, f: Stored, i: nat)
    requires Ready(v, d) && d.cfg.GeometryOk(f.stride, f.count) && d.Eligible(f) && i < f.count
    ensures f.Members()[i] == Plus(f.base, Mul(i, f.stride)) && d.InWindow(f.Members()[i])
    ensures v.Pos(f.Members()[i]) == v.Pos(f.base) + Mul(i, f.stride)
  {
    MulMono(i, f.count - 1, f.stride);
    EligibleAt(d, f, Mul(i, f.stride));
  }

  // ---- rebuilding ----

  /** The sum of the absent ones among the first n members. */
  function AbsentSum(v: View, ms: seq<u32>, n: nat, have: set<u32>): (r: Vec)
    requires n <= |ms| && forall i :: 0 <= i < n ==> v.Sent(ms[i])
    ensures |r| == 3 + v.size
  {
    if n == 0 then Zero(3 + v.size) else
    var before := AbsentSum(v, ms, n - 1, have);
    if ms[n - 1] in have then before else XorVec(before, Pack(v.Orig(ms[n - 1]), v.size))
  }

  /** The sum of all of the first n members. */
  function MemberSum(v: View, ms: seq<u32>, n: nat): (r: Vec)
    requires n <= |ms| && forall i :: 0 <= i < n ==> v.Sent(ms[i])
    ensures |r| == 3 + v.size
  {
    if n == 0 then Zero(3 + v.size) else
    XorVec(MemberSum(v, ms, n - 1), Pack(v.Orig(ms[n - 1]), v.size))
  }

  /** Adding p to one side of x + y and not to the other, or to both. */
  lemma AddOne(rec: Vec, k: Vec, m: Vec, p: Vec)
    requires |rec| == |k| == |m| == |p|
    ensures XorVec(XorVec(XorVec(rec, k), m), p) == XorVec(XorVec(rec, XorVec(k, p)), m)
    ensures XorVec(XorVec(rec, XorVec(k, p)), XorVec(m, p)) == XorVec(XorVec(rec, k), m)
  {
    hide XorVec;
    var x := XorVec(rec, k);
    VecAssoc(rec, k, p);
    VecSwap(x, m, p);
    VecAssoc(XorVec(x, p), m, p);
    VecSwap(x, p, m);
    VecCancel(XorVec(x, m), p);
  }

  /** Taking out what is present leaves the absent, whatever the starting sum. */
  lemma {:induction false} RebuildIs(v: View, rec: Vec, ms: seq<u32>, n: nat, media: map<u32, Kept>)
    requires |rec| == 3 + v.size && n <= |ms| && forall i :: 0 <= i < n ==> v.Sent(ms[i])
    requires forall i :: 0 <= i < n && ms[i] in media ==> media[ms[i]].media == v.Orig(ms[i])
    ensures Rebuild(rec, ms, n, media, v.size)
         == XorVec(XorVec(rec, MemberSum(v, ms, n)), AbsentSum(v, ms, n, media.Keys))
  {
    hide XorVec, Pack;
    if n == 0 {
      VecZero(rec);
    } else {
      RebuildIs(v, rec, ms, n - 1, media);
      AddOne(rec, MemberSum(v, ms, n - 1), AbsentSum(v, ms, n - 1, media.Keys), Pack(v.Orig(ms[n - 1]), v.size));
    }
  }

  lemma {:induction false} AbsentSumNone(v: View, ms: seq<u32>, n: nat, have: set<u32>)
    requires n <= |ms| && (forall i :: 0 <= i < n ==> v.Sent(ms[i])) && Absent(ms[..n], have) == []
    ensures AbsentSum(v, ms, n, have) == Zero(3 + v.size)
  {
    if n > 0 {
      assert ms[..n][..n - 1] == ms[..n - 1];
      AbsentSumNone(v, ms, n - 1, have);
    }
  }

  lemma {:induction false} AbsentSumOne(v: View, ms: seq<u32>, n: nat, have: set<u32>)
    requires n <= |ms| && (forall i :: 0 <= i < n ==> v.Sent(ms[i])) && |Absent(ms[..n], have)| == 1
    ensures v.Sent(Absent(ms[..n], have)[0])
    ensures AbsentSum(v, ms, n, have) == Pack(v.Orig(Absent(ms[..n], have)[0]), v.size)
  {
    hide Pack, XorVec;
    assert ms[..n][..n - 1] == ms[..n - 1];
    if ms[n - 1] in have {
      AbsentSumOne(v, ms, n - 1, have);
    } else {
      AbsentSumNone(v, ms, n - 1, have);
      VecZero(Pack(v.Orig(ms[n - 1]), v.size));
    }
  }

  /** The sum over the group's positions is the sum over its sequence numbers. */
  lemma {:induction false} GroupSumIs(v: View, d: Decoder, f: Stored, n: nat)
    requires Ready(v, d) && d.cfg.GeometryOk(f.stride, f.count) && d.Eligible(f) && n <= f.count
    requires v.st.HasGroup(v.Pos(f.base), f.stride, f.count)
    ensures forall i :: 0 <= i < n ==> v.Sent(f.Members()[i])
    ensures GroupSum(v.st, v.Pos(f.base), f.stride, n, v.size) == MemberSum(v, f.Members(), n)
    decreases n
  {
    hide Ready, View.Pos, Decoder.Eligible, Mul, XorVec, Pack, MatrixConfig.GeometryOk, Plus, Decoder.InWindow;
    if n > 0 {
      GroupSumIs(v, d, f, n - 1);
      MemberAt(v, d, f, n - 1);
    }
  }

  /** A genuine group with one absent member solves for exactly that packet. */
  lemma SolvesForOriginal(v: View, d: Decoder, f: Stored)
    requires Ready(v, d) && StoredOk(v, d, f) && d.Eligible(f)
    requires |Absent(f.Members(), d.media.Keys)| == 1
    ensures var (ms, k) := (f.Members(), Absent(f.Members(), d.media.Keys)[0]);
      && k in ms && k !in d.media && d.InWindow(k) && v.Sent(k)
      && Rebuild(f.Sum(d.size), ms, |ms|, d.media, d.size) == Pack(v.Orig(k), v.size)
  {
    hide Decoder.Eligible, Decoder.InWindow, XorVec, Pack, MatrixConfig.GeometryOk, MatrixConfig.Valid, GroupSum, MemberSum, AbsentSum,
         Rebuild, View.Sent, View.Orig;
    var ms, have := f.Members(), d.media.Keys;
    GroupSumIs(v, d, f, f.count);
    forall i | 0 <= i < |ms| ensures d.InWindow(ms[i]) { MemberAt(v, d, f, i); }
    RebuildIs(v, f.Sum(v.size), ms, |ms|, d.media);
    VecSelf(f.Sum(v.size));
    assert ms[..|ms|] == ms;
    AbsentSumOne(v, ms, |ms|, have);
    VecZero(AbsentSum(v, ms, |ms|, have));
    AbsentWithin(ms, have);
  }

  // ---- what a run of attempts adds ----

  /** Only the done marks of the stored groups differ. */
  predicate SameGroups(d: Decoder, r: Decoder) {
    && r.cfg == d.cfg && r.size == d.size && r.lastSeq == d.lastSeq && r.haveSeq == d.haveSeq
    && |r.fecs| == |d.fecs|
    && forall i :: 0 <= i < |d.fecs| ==> r.fecs[i].(done := d.fecs[i].done) == d.fecs[i]
  }

  /** p was rebuilt: it was not held before, is now, and is what was sent. */
  predicate Rebuilt(v: View, d: Decoder, r: Decoder, p: Recovered) {
    && p.seqno !in d.media && d.InWindow(p.seqno)
    && p.seqno in r.media && r.media[p.seqno] == Kept(p.media, p.ssrc)
    && v.Sent(p.seqno) && p.media == v.Orig(p.seqno)
  }

  /** From d to r, media only grew, and by exactly the packets put out, each once. */
  predicate Gained(v: View, d: Decoder, r: Decoder) {
    && SameGroups(d, r)
    && |d.out| <= |r.out| && r.out[..|d.out|] == d.out
    && (forall i :: 0 <= i < |d.fecs| && r.fecs[i].done && !d.fecs[i].done ==> Decided(d, d.fecs[i]))
    && (forall k :: k in d.media ==> k in r.media && r.media[k] == d.media[k])
    && (forall j :: |d.out| <= j < |r.out| ==> Rebuilt(v, d, r, r.out[j]))
    && (forall i, j :: |d.out| <= i < j < |r.out| ==> r.out[i].seqno != r.out[j].seqno)
    && (forall k :: k in r.media && k !in d.media ==> PutOut(d, r, k))
  }

  /** Only such groups are ever given up or finished. */
  predicate Decided(d: Decoder, f: Stored) { d.Below(f.base) || d.Eligible(f) }

  predicate PutOut(d: Decoder, r: Decoder, k: u32) {
    exists j :: |d.out| <= j < |r.out| && r.out[j].seqno == k
  }

  lemma GainedSelf(v: View, d: Decoder)
    ensures Gained(v, d, d)
  {
  }

  lemma DecidedSame(d: Decoder, m: Decoder, i: nat)
    requires SameGroups(d, m) && i < |d.fecs|
    ensures Decided(d, d.fecs[i]) == Decided(m, m.fecs[i])
  {
    assert m.fecs[i].(done := d.fecs[i].done) == d.fecs[i];
  }

  lemma GainedTransitive(v: View, d: Decoder, m: Decoder, r: Decoder)
    requires Gained(v, d, m) && Gained(v, m, r)
    ensures Gained(v, d, r)
  {
    hide View.Sent, View.Orig, MatrixConfig.Window, Decided;
    assert forall j :: 0 <= j < |m.out| ==> r.out[j] == m.out[j] by {
      assert forall j :: 0 <= j < |m.out| ==> r.out[..|m.out|][j] == m.out[j];
    }
    assert r.out[..|d.out|] == r.out[..|m.out|][..|d.out|] == d.out;
    forall i | 0 <= i < |d.fecs| && r.fecs[i].done && !d.fecs[i].done ensures Decided(d, d.fecs[i]) {
      DecidedSame(d, m, i);
    }
    forall j | |d.out| <= j < |r.out| ensures Rebuilt(v, d, r, r.out[j]) {
      if j < |m.out| { assert Rebuilt(v, d, m, m.out[j]); } else { assert Rebuilt(v, m, r, r.out[j]); }
    }
    forall i, j | |d.out| <= i < j < |r.out| ensures r.out[i].seqno != r.out[j].seqno {
      if i < |m.out| <= j {
        assert Rebuilt(v, d, m, m.out[i]);
        assert Rebuilt(v, m, r, r.out[j]);
      }
    }
    forall k | k in r.media && k !in d.media ensures PutOut(d, r, k) {
      if k in m.media {
        assert PutOut(d, m, k);
        var j :| |d.out| <= j < |m.out| && m.out[j].seqno == k;
        assert r.out[j].seqno == k;
      } else {
        assert PutOut(m, r, k);
      }
    }
  }

  /** Readiness survives marks and genuine additions. */
  lemma StaysReady(v: View, d: Decoder, r: Decoder)
    requires Ready(v, d) && Gained(v, d, r)
    requires forall i :: 0 <= i < |d.fecs| && r.fecs[i].done && !d.fecs[i].done && d.Eligible(d.fecs[i]) ==>
      Resolved(r, d.fecs[i])
    ensures Ready(v, r)
  {
    hide View.Sent, View.Orig, MatrixConfig.Window, MatrixConfig.GeometryOk, Genuine, MatrixConfig.Valid;
    forall i | 0 <= i < |r.fecs| ensures StoredOk(v, r, r.fecs[i]) {
      var f := d.fecs[i];
      assert StoredOk(v, d, f);
      assert r.fecs[i].(done := f.done) == f;
      assert r.fecs[i].Members() == f.Members() && r.Eligible(r.fecs[i]) == d.Eligible(f);
      GenuineMark(v, f, r.fecs[i]);
      if d.Eligible(f) && r.fecs[i].done && f.done { AbsentShrinks(f.Members(), d.media.Keys, r.media.Keys); }
    }
    forall k | k in r.media && r.InWindow(k) ensures v.Sent(k) && r.media[k].media == v.Orig(k) {
      if k !in d.media {
        var j :| |d.out| <= j < |r.out| && r.out[j].seqno == k;
        assert Rebuilt(v, d, r, r.out[j]);
      }
    }
  }

  lemma GenuineMark(v: View, f: Stored, g: Stored)
    requires g.(done := f.done) == f
    ensures Genuine(v, f) == Genuine(v, g)
  {
  }

  lemma RecoverGains(v: View, d: Decoder, i: nat)
    requires Ready(v, d) && i < |d.fecs| && Attempt(d, d.fecs[i]).Recover?
    ensures var (r, p, ms) := (TryRecover(d, i), Attempt(d, d.fecs[i]).packet, d.fecs[i].Members());
      && Gained(v, d, r) && r.fecs[i].done && Resolved(r, d.fecs[i])
      && d.Eligible(d.fecs[i]) && Absent(ms, d.media.Keys) == [p.seqno]
  {
    hide MatrixConfig.Window, MatrixConfig.GeometryOk, Genuine, MatrixConfig.Valid, Pack, Unpack, GroupSsrc,
         Rebuild, Plus, Mul, Distance, Fwd;
    var f := d.fecs[i];
    assert StoredOk(v, d, f);
    SolvesForOriginal(v, d, f);
    var p := Attempt(d, f).packet;
    PackRoundTrip(v.Orig(p.seqno), v.size);
    var r := TryRecover(d, i);
    OneAbsent(f.Members(), d.media.Keys, r.media.Keys);
    assert r.out[|d.out|] == p && Rebuilt(v, d, r, p);
    assert PutOut(d, r, p.seqno);
  }

  lemma TryRecoverReady(v: View, d: Decoder, i: nat)
    requires Ready(v, d) && i < |d.fecs|
    ensures Ready(v, TryRecover(d, i)) && Gained(v, d, TryRecover(d, i))
  {
    hide Ready, MatrixConfig.Window, Gained, Absent, Rebuild, Unpack, Pack;
    match Attempt(d, d.fecs[i])
    case Leave => GainedSelf(v, d);
    case Finish => FinishReady(v, d, i);
    case Recover(p) =>
      RecoverGains(v, d, i);
      StaysReady(v, d, TryRecover(d, i));
  }

  lemma FinishReady(v: View, d: Decoder, i: nat)
    requires Ready(v, d) && i < |d.fecs| && Attempt(d, d.fecs[i]).Finish?
    ensures Ready(v, TryRecover(d, i)) && Gained(v, d, TryRecover(d, i))
  {
    hide MatrixConfig.Window, MatrixConfig.GeometryOk, Genuine, MatrixConfig.Valid, Rebuild, Unpack, Pack, GroupSsrc;
    var f := d.fecs[i];
    assert StoredOk(v, d, f);
    if d.Eligible(f) && |Absent(f.Members(), d.media.Keys)| == 1 {
      SolvesForOriginal(v, d, f);
      PackPlausible(v, Absent(f.Members(), d.media.Keys)[0]);
    }
    StaysReady(v, d, TryRecover(d, i));
  }

  lemma PackPlausible(v: View, k: u32)
    requires v.Valid() && v.Sent(k)
    ensures Pack(v.Orig(k), v.size)[0] <= v.size
  {
    PackRoundTrip(v.Orig(k), v.size);
  }

  // ---- passes ----

  /** No eligible group of d has exactly one member outside `have`. */
  predicate ClosedUnder(have: set<u32>, d: Decoder) {
    forall i :: 0 <= i < |d.fecs| && d.Eligible(d.fecs[i]) ==> |Absent(d.fecs[i].Members(), have)| != 1
  }

  lemma ClosedSame(have: set<u32>, d: Decoder, r: Decoder)
    requires SameGroups(d, r)
    ensures ClosedUnder(have, d) == ClosedUnder(have, r)
  {
    hide MatrixConfig.Window, Absent;
    forall i | 0 <= i < |d.fecs|
      ensures d.Eligible(d.fecs[i]) == r.Eligible(r.fecs[i]) && d.fecs[i].Members() == r.fecs[i].Members()
    {
      assert r.fecs[i].(done := d.fecs[i].done) == d.fecs[i];
    }
  }

  /** A pass keeps genuineness, adds only what it puts out, and stays inside every
      closed set that holds what it started from. */
  lemma {:induction false} PassReady(v: View, d: Decoder, i: nat)
    requires Ready(v, d) && i <= |d.fecs|
    ensures Ready(v, Pass(d, i)) && Gained(v, d, Pass(d, i))
    decreases |d.fecs| - i
  {
    hide Ready, Gained, TryRecover;
    if i == |d.fecs| {
      GainedSelf(v, d);
    } else {
      TryRecoverReady(v, d, i);
      var m := TryRecover(d, i);
      UndoneFalls(d.fecs, i);
      GainedShape(v, d, m);
      PassReady(v, m, i + 1);
      GainedTransitive(v, d, m, Pass(d, i));
    }
  }

  lemma GainedShape(v: View, d: Decoder, r: Decoder)
    requires Gained(v, d, r)
    ensures SameGroups(d, r) && |r.fecs| == |d.fecs| && d.media.Keys <= r.media.Keys && |d.out| <= |r.out|
  {
  }

  lemma {:induction false} PassLeast(v: View, d: Decoder, i: nat, have: set<u32>)
    requires Ready(v, d) && i <= |d.fecs| && ClosedUnder(have, d) && d.media.Keys <= have
    ensures Pass(d, i).media.Keys <= have
    decreases |d.fecs| - i
  {
    hide Ready, Gained, ClosedUnder, SameGroups;
    if i < |d.fecs| {
      TryRecoverReady(v, d, i);
      var m := TryRecover(d, i);
      GainedShape(v, d, m);
      ClosedSame(have, d, m);
      StepLeast(v, d, i, have);
      PassLeast(v, m, i + 1, have);
    }
  }

  lemma StepLeast(v: View, d: Decoder, i: nat, have: set<u32>)
    requires Ready(v, d) && i < |d.fecs| && ClosedUnder(have, d) && d.media.Keys <= have
    ensures TryRecover(d, i).media.Keys <= have
  {
    hide Ready, Gained, Attempt, Absent, MatrixConfig.Window;
    if Attempt(d, d.fecs[i]).Recover? {
      RecoverGains(v, d, i);
      OneAbsent(d.fecs[i].Members(), d.media.Keys, have);
    }
  }

  /** A pass that puts nothing out leaves nothing to recover. */
  lemma {:induction false} PassIdle(v: View, d: Decoder, i: nat)
    requires Ready(v, d) && i <= |d.fecs| && |Pass(d, i).out| == |d.out|
    ensures Pass(d, i).media == d.media
    ensures forall j :: i <= j < |d.fecs| && d.Eligible(d.fecs[j]) ==> |Absent(d.fecs[j].Members(), d.media.Keys)| != 1
    decreases |d.fecs| - i
  {
    hide Ready, Gained, Attempt, Absent, MatrixConfig.Window, Pass, Decoder.Eligible;
    PassUnfold(d, i);
    if i < |d.fecs| {
      var m := TryRecover(d, i);
      TryRecoverReady(v, d, i);
      GainedShape(v, d, m);
      PassIdle(v, m, i + 1);
      if d.Eligible(d.fecs[i]) { NotOneMissing(v, d, i); }
      forall j | i + 1 <= j < |d.fecs| && d.Eligible(d.fecs[j])
        ensures |Absent(d.fecs[j].Members(), d.media.Keys)| != 1
      {
        SameMember(d, m, j);
      }
    }
  }

  lemma SameMember(d: Decoder, r: Decoder, j: nat)
    requires SameGroups(d, r) && j < |d.fecs|
    ensures d.Eligible(d.fecs[j]) == r.Eligible(r.fecs[j]) && d.fecs[j].Members() == r.fecs[j].Members()
  {
    assert r.fecs[j].(done := d.fecs[j].done) == d.fecs[j];
  }

  lemma PassUnfold(d: Decoder, i: nat)
    requires i <= |d.fecs|
    ensures i == |d.fecs| ==> Pass(d, i) == d
    ensures i < |d.fecs| ==> |TryRecover(d, i).fecs| == |d.fecs| && Pass(d, i) == Pass(TryRecover(d, i), i + 1)
    ensures i < |d.fecs| ==> |Pass(d, i).out| >= |TryRecover(d, i).out| >= |d.out|
    ensures i < |d.fecs| && |TryRecover(d, i).out| == |d.out| ==>
      TryRecover(d, i).media == d.media && !Attempt(d, d.fecs[i]).Recover?
  {
    hide Attempt;
  }

  lemma NotOneMissing(v: View, d: Decoder, i: nat)
    requires Ready(v, d) && i < |d.fecs| && !Attempt(d, d.fecs[i]).Recover? && d.Eligible(d.fecs[i])
    ensures |Absent(d.fecs[i].Members(), d.media.Keys)| != 1
  {
    hide MatrixConfig.Window, MatrixConfig.GeometryOk, Genuine, MatrixConfig.Valid, Rebuild, Unpack, Pack, GroupSsrc;
    var f := d.fecs[i];
    assert StoredOk(v, d, f);
    if |Absent(f.Members(), d.media.Keys)| == 1 {
      SolvesForOriginal(v, d, f);
      PackPlausible(v, Absent(f.Members(), d.media.Keys)[0]);
    }
  }

  // ---- the fixed point ----

  lemma {:induction false} RecoverAllReady(v: View, d: Decoder)
    requires Ready(v, d)
    ensures Ready(v, RecoverAll(d)) && Gained(v, d, RecoverAll(d))
    ensures ClosedUnder(RecoverAll(d).media.Keys, d)
    decreases Undone(d.fecs)
  {
    hide Ready, Gained, Pass, MatrixConfig.Window, Absent;
    var m := Pass(d, 0);
    PassReady(v, d, 0);
    GainedShape(v, d, m);
    if |m.out| > |d.out| {
      RecoverAllReady(v, m);
      GainedTransitive(v, d, m, RecoverAll(m));
      ClosedSame(RecoverAll(m).media.Keys, d, m);
    } else {
      PassIdle(v, d, 0);
    }
  }

  lemma {:induction false} RecoverAllLeast(v: View, d: Decoder, have: set<u32>)
    requires Ready(v, d) && ClosedUnder(have, d) && d.media.Keys <= have
    ensures RecoverAll(d).media.Keys <= have
    decreases Undone(d.fecs)
  {
    hide Ready, Gained, Pass, ClosedUnder, SameGroups;
    var m := Pass(d, 0);
    PassReady(v, d, 0);
    GainedShape(v, d, m);
    PassLeast(v, d, 0, have);
    if |m.out| > |d.out| {
      ClosedSame(have, d, m);
      RecoverAllLeast(v, m, have);
    }
  }

  /** Peeling genuine input computes the least set that holds what was received and
      is closed under the one-missing rule, each packet in it being the one sent. */
  lemma PeelingIsClosure(v: View, d: Decoder)
    requires Ready(v, d)
    ensures var r := RecoverAll(d);
      && d.media.Keys <= r.media.Keys && ClosedUnder(r.media.Keys, d)
      && (forall have: set<u32> :: d.media.Keys <= have && ClosedUnder(have, d) ==> r.media.Keys <= have)
      && Gained(v, d, r)
  {
    hide Ready, ClosedUnder, RecoverAll;
    RecoverAllReady(v, d);
    forall have: set<u32> | d.media.Keys <= have && ClosedUnder(have, d) ensures RecoverAll(d).media.Keys <= have {
      RecoverAllLeast(v, d, have);
    }
  }

  /** Every group of d is stored in e, in whatever place. */
  predicate Covers(e: Decoder, d: Decoder) {
    forall i :: 0 <= i < |d.fecs| ==> exists j :: 0 <= j < |e.fecs| && e.fecs[j].SameGroup(d.fecs[i])
  }

  lemma CoversClosed(have: set<u32>, d: Decoder, e: Decoder)
    requires Covers(e, d) && e.cfg == d.cfg && e.lastSeq == d.lastSeq && ClosedUnder(have, e)
    ensures ClosedUnder(have, d)
  {
    hide MatrixConfig.Window, Absent;
    forall i | 0 <= i < |d.fecs| && d.Eligible(d.fecs[i]) ensures |Absent(d.fecs[i].Members(), have)| != 1 {
      var j :| 0 <= j < |e.fecs| && e.fecs[j].SameGroup(d.fecs[i]);
      assert e.fecs[j].Members() == d.fecs[i].Members() && e.Eligible(e.fecs[j]);
    }
  }

  /** The order in which groups are stored does not matter: the same packets are
      held afterwards, with the same contents wherever the window reaches. */
  lemma PeelingOrderFree(v: View, d: Decoder, e: Decoder)
    requires Ready(v, d) && Ready(v, e) && e.cfg == d.cfg && e.lastSeq == d.lastSeq && e.media == d.media
    requires Covers(e, d) && Covers(d, e)
    ensures RecoverAll(d).media.Keys == RecoverAll(e).media.Keys
    ensures forall k :: k in RecoverAll(d).media && d.InWindow(k) ==>
      RecoverAll(d).media[k].media == RecoverAll(e).media[k].media
  {
    hide ClosedUnder, RecoverAll, Covers, MatrixConfig.Window;
    RecoverAllReady(v, d);
    RecoverAllReady(v, e);
    CoversClosed(RecoverAll(e).media.Keys, d, e);
    CoversClosed(RecoverAll(d).media.Keys, e, d);
    RecoverAllLeast(v, d, RecoverAll(e).media.Keys);
    RecoverAllLeast(v, e, RecoverAll(d).media.Keys);
  }
}
