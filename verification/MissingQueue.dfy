/** The FIFO of queued retransmission requests as the receiver keeps it: a linked
    list with head, tail and count (internal/flow/receiver.go). */
module MissingQueue {
  import opened Serial
  import opened FlowTypes
  import opened PlayoutBuffer
  import opened Recovery

  class Node {
    var entry: Entry
    var next: Node?

    constructor (e: Entry)
      ensures entry == e && next == null
    {
      entry, next := e, null;
    }
  }

  function Values(ns: seq<Node>): (r: seq<Entry>)
    reads ns`entry
    ensures |r| == |ns| && forall i :: 0 <= i < |ns| ==> r[i] == ns[i].entry
  {
    if ns == [] then [] else Values(ns[..|ns| - 1]) + [ns[|ns| - 1].entry]
  }

  ghost predicate Distinct(ns: seq<Node>) {
    forall i, j :: 0 <= i < j < |ns| ==> ns[i] != ns[j]
  }

  /** Each node of ns points at the one after it, the last one at nothing. */
  ghost predicate Linked(ns: seq<Node>)
    reads ns`next
  {
    forall i :: 0 <= i < |ns| ==> ns[i].next == After(ns, i)
  }

  ghost function After(ns: seq<Node>, i: int): Node?
    requires 0 <= i < |ns|
  {
    if i + 1 < |ns| then ns[i + 1] else null
  }

  class Fifo {
    var head: Node?
    var tail: Node?
    var count: int
    ghost var nodes: seq<Node>
    ghost var Repr: set<Node>

    ghost predicate Valid()
      reads this, Repr`next
    {
      && (forall n :: n in nodes ==> n in Repr)
      && Distinct(nodes) && Linked(nodes)
      && head == (if nodes == [] then null else nodes[0])
      && tail == (if nodes == [] then null else nodes[|nodes| - 1])
      && count == |nodes|
    }

    ghost function Contents(): seq<Entry>
      reads this, Repr
      requires Valid()
    {
      Values(nodes)
    }

    constructor ()
      ensures Valid() && nodes == [] && Repr == {}
    {
      head, tail, count, nodes, Repr := null, null, 0, [], {};
    }

    method Clear()
      modifies this
      ensures Valid() && nodes == [] && Repr == {}
    {
      head, tail, count, nodes, Repr := null, null, 0, [], {};
    }

    method Append(e: Entry)
      requires Valid()
      modifies this, Repr
      ensures Valid() && fresh(Repr - old(Repr))
      ensures Contents() == old(Contents()) + [e] && count == old(count) + 1
    {
      hide Values, Distinct, After;
      ghost var ns, es := nodes, Contents();
      var n := new Node(e);
      DistinctAppend(ns, n);
      if ns != [] { LastIs(ns + [n], |ns|); }
      if tail == null {
        head := n;
      } else {
        tail.next := n;
      }
      tail := n;
      count := count + 1;
      nodes, Repr := ns + [n], Repr + {n};
      LinksAfterAppend(ns, n);
      ValuesAppend(ns, n);
    }

    /** Take the k-th node e out of the list; prev is the node before it. */
    method Unlink(prev: Node?, e: Node, ghost k: nat)
      requires Valid() && k < |nodes| && nodes[k] == e
      requires prev == LastOf(nodes[..k])
      modifies this, Repr`next
      ensures Valid() && nodes == old(nodes[..k] + nodes[k + 1..]) && Repr == old(Repr)
    {
      hide After, Distinct;
      ghost var ns := nodes;
      var next := e.next;
      EndsAfterRemoval(ns, k);
      DistinctRemoval(ns, k);
      LastIs(ns, k);
      if prev == null {
        head := next;
      } else {
        prev.next := next;
      }
      if e == tail {
        tail := prev;
      }
      count := count - 1;
      nodes := ns[..k] + ns[k + 1..];
      LinksAfterRemoval(ns, k);
    }

    /** Decide the fate of one entry. */
    method Examine(e: Node, x: Context, ring: array<Slot>, now: int,
                   batch0: seq<u32>, tokens0: real, recoveries0: Recoveries, abandoned0: nat, ghost kept: seq<Entry>)
      returns (remove: bool, batch: seq<u32>, tokens: real, recoveries: Recoveries, abandoned: nat)
      requires ring.Length > 0 && Valid()
      modifies e`entry
      ensures Valid()
      ensures Sweep(kept + (if remove then [] else [e.entry]), batch, tokens, recoveries, abandoned)
        == SweepEntry(Sweep(kept, batch0, tokens0, recoveries0, abandoned0), old(e.entry), x, ring[..], now)
    {
      var s := ring[e.entry.seqno % ring.Length];
      remove, batch, tokens, recoveries, abandoned := false, batch0, tokens0, recoveries0, abandoned0;
      if s.Filled? && s.held.seqno == e.entry.seqno {
        if e.entry.nackCount > 0 {
          recoveries := recoveries.Count(e.entry.nackCount);
        }
        remove := true;
      } else if s.Filled? {
        remove := true;
      } else if e.entry.nackCount >= x.cfg.maxRetries {
        abandoned := abandoned + 1;
        remove := true;
      } else if now - e.entry.insertionTime > Mul110(x.recoveryBuffer) {
        abandoned := abandoned + 1;
        remove := true;
      } else if now >= e.entry.nextNack {
        if |batch| < RIST_MAX_NACKS && (x.cfg.nackSeqsPerSec == 0.0 || tokens >= 1.0) {
          e.entry := e.entry.(nextNack := now + x.est.RetryInterval(x.cfg), nackCount := e.entry.nackCount + 1);
          batch := batch + [e.entry.seqno];
          if x.cfg.nackSeqsPerSec > 0.0 {
            tokens := tokens - 1.0;
          }
        }
      }
      assert kept + [] == kept;
    }

    lemma NextIsAfter(k: nat)
      requires Valid() && k < |nodes|
      ensures nodes[k].next == After(nodes, k)
    {
    }

    /** Decide the fate of one node, between those kept and those to come, which are
        untouched. */
    method ExamineFirst(e: Node, ghost kept: seq<Node>, ghost back: seq<Node>, x: Context, ring: array<Slot>, now: int,
                        batch0: seq<u32>, tokens0: real, recoveries0: Recoveries, abandoned0: nat)
      returns (remove: bool, batch: seq<u32>, tokens: real, recoveries: Recoveries, abandoned: nat)
      requires ring.Length > 0 && Valid() && nodes == kept + [e] + back
      modifies e`entry
      ensures Valid()
      ensures Values(back) == old(Values(back))
      ensures Sweep(Values(if remove then kept else kept + [e]), batch, tokens, recoveries, abandoned)
        == SweepEntry(Sweep(old(Values(kept)), batch0, tokens0, recoveries0, abandoned0), old(e.entry), x, ring[..], now)
    {
      hide SweepEntry, Values, Distinct, Linked;
      ghost var frontValues, backValues := Values(kept), Values(back);
      OthersDiffer(kept, e, back);
      remove, batch, tokens, recoveries, abandoned :=
        Examine(e, x, ring, now, batch0, tokens0, recoveries0, abandoned0, frontValues);
      ValuesSame(kept, frontValues);
      ValuesSame(back, backValues);
      ValuesAppend(kept, e);
      assert frontValues + [] == frontValues;
    }

    /** Decide the fate of one node, unlinking it if it is to go, and step to the next. */
    method Advance(prev: Node?, e: Node, ghost kept: seq<Node>, ghost back: seq<Node>,
                   x: Context, ring: array<Slot>, now: int,
                   batch0: seq<u32>, tokens0: real, recoveries0: Recoveries, abandoned0: nat)
      returns (prev': Node?, next: Node?, ghost kept': seq<Node>,
               batch: seq<u32>, tokens: real, recoveries: Recoveries, abandoned: nat)
      requires ring.Length > 0 && Valid()
      requires nodes == kept + [e] + back && prev == LastOf(kept)
      modifies this, Repr
      ensures Valid() && Repr == old(Repr) && nodes == kept' + back
      ensures prev' == LastOf(kept') && next == (if back == [] then null else back[0])
      ensures Values(back) == old(Values(back))
      ensures Sweep(Values(kept'), batch, tokens, recoveries, abandoned)
        == SweepEntry(Sweep(old(Values(kept)), batch0, tokens0, recoveries0, abandoned0), old(e.entry), x, ring[..], now)
    {
      hide SweepEntry, Values, Distinct, Linked, After;
      Splice(kept, e, back);
      NextIsAfter(|kept|);
      AfterSplice(kept, e, back);
      next := e.next;
      var remove;
      remove, batch, tokens, recoveries, abandoned :=
        ExamineFirst(e, kept, back, x, ring, now, batch0, tokens0, recoveries0, abandoned0);
      if remove {
        Unlink(prev, e, |kept|);
        prev', kept' := prev, kept;
      } else {
        prev', kept' := e, kept + [e];
      }
    }

    /** One pass over the list: drop what was recovered, reused or abandoned, and
        collect what is due again. */
    method Pass(x: Context, ring: array<Slot>, now: int, tokens0: real, recoveries0: Recoveries, abandoned0: nat)
      returns (batch: seq<u32>, tokens: real, recoveries: Recoveries, abandoned: nat)
      requires Valid() && ring.Length > 0
      modifies this, Repr
      ensures Valid() && Repr == old(Repr)
      ensures old(count) == |old(Contents())| && count == |Contents()|
      ensures Sweep(Contents(), batch, tokens, recoveries, abandoned)
        == SweepTo(Sweep([], [], tokens0, recoveries0, abandoned0), old(Contents()), |old(Contents())|, x, ring[..], now)
    {
      hide SweepEntry, SweepTo, Values, Distinct, Linked, After, LastOf;
      ghost var es, slots := Contents(), ring[..];
      ghost var w0 := Sweep([], [], tokens0, recoveries0, abandoned0);
      ghost var kept: seq<Node>, rest, i := [], nodes, 0;
      batch, tokens, recoveries, abandoned := [], tokens0, recoveries0, abandoned0;
      var prev: Node? := null;
      var e := head;
      NothingBefore(w0, nodes, es, x, slots, now);
      while e != null
        invariant Valid() && nodes == kept + rest && Repr == old(Repr)
        invariant e == (if rest == [] then null else rest[0])
        invariant prev == LastOf(kept)
        invariant i + |rest| == |es| && Values(rest) == es[i..]
        invariant Sweep(Values(kept), batch, tokens, recoveries, abandoned) == SweepTo(w0, es, i, x, slots, now)
        decreases |rest|
      {
        ValuesTail(rest, es, i);
        SweepStep(w0, es, i, x, slots, now);
        Unsplice(kept, rest);
        ghost var back := rest[1..];
        prev, e, kept, batch, tokens, recoveries, abandoned :=
          Advance(prev, e, kept, back, x, ring, now, batch, tokens, recoveries, abandoned);
        rest, i := back, i + 1;
      }
      assert nodes == kept;
    }
  }

  lemma {:induction false} ValuesSame(ns: seq<Node>, es: seq<Entry>)
    requires |es| == |ns| && forall i :: 0 <= i < |ns| ==> ns[i].entry == es[i]
    ensures Values(ns) == es
  {
  }

  lemma ValuesAppend(ns: seq<Node>, n: Node)
    ensures Values(ns + [n]) == Values(ns) + [n.entry]
  {
    ValuesSame(ns + [n], Values(ns) + [n.entry]);
  }

  lemma AfterRemoval(ns: seq<Node>, k: nat, j: nat)
    requires k < |ns| && j < |ns| - 1
    ensures var (ms, i) := (ns[..k] + ns[k + 1..], if j < k then j else j + 1);
      ms[j] == ns[i] && After(ms, j) == (if j + 1 == k then After(ns, k) else After(ns, i))
  {
  }

  /** If only the last node was re-linked, to a new one, the longer list is linked. */
  lemma LinksAfterAppend(ns: seq<Node>, n: Node)
    requires n.next == null
    requires forall i :: 0 <= i < |ns| - 1 ==> ns[i].next == After(ns, i)
    requires ns != [] ==> ns[|ns| - 1].next == n
    ensures Linked(ns + [n])
  {
    var ms := ns + [n];
    forall j | 0 <= j < |ms| ensures ms[j].next == After(ms, j) {
      if j < |ns| { assert ms[j] == ns[j]; }
    }
  }

  /** If only the node before the one removed was re-linked, to the one after it, the
      rest is linked. */
  lemma LinksAfterRemoval(ns: seq<Node>, k: nat)
    requires k < |ns|
    requires forall i :: 0 <= i < |ns| && i != k - 1 ==> ns[i].next == After(ns, i)
    requires k > 0 ==> ns[k - 1].next == After(ns, k)
    ensures Linked(ns[..k] + ns[k + 1..])
  {
    hide After;
    var ms := ns[..k] + ns[k + 1..];
    forall j | 0 <= j < |ms| ensures ms[j].next == After(ms, j) { AfterRemoval(ns, k, j); }
  }

  /** The ends of the list once the k-th node is gone. */
  lemma EndsAfterRemoval(ns: seq<Node>, k: nat)
    requires k < |ns|
    ensures var ms := ns[..k] + ns[k + 1..];
      && (if ms == [] then null else ms[0]) == (if k == 0 then After(ns, 0) else ns[0])
      && LastOf(ms) == (if k == |ns| - 1 then LastOf(ns[..k]) else ns[|ns| - 1])
      && |ms| == |ns| - 1 && forall n :: n in ms ==> n in ns
  {
  }

  /** What precedes the k-th node, and that no other node is it. */
  lemma LastIs(ns: seq<Node>, k: nat)
    requires k < |ns| && Distinct(ns)
    ensures LastOf(ns[..k]) == (if k == 0 then null else ns[k - 1])
    ensures k > 0 ==> forall i :: 0 <= i < |ns| && i != k - 1 ==> ns[i] != ns[k - 1]
    ensures ns[k] == ns[|ns| - 1] <==> k == |ns| - 1
  {
  }

  lemma DistinctAppend(ns: seq<Node>, n: Node)
    requires Distinct(ns) && n !in ns
    ensures Distinct(ns + [n])
  {
  }

  lemma DistinctRemoval(ns: seq<Node>, k: nat)
    requires k < |ns| && Distinct(ns)
    ensures Distinct(ns[..k] + ns[k + 1..])
  {
  }

  lemma OthersDiffer(kept: seq<Node>, e: Node, back: seq<Node>)
    requires Distinct(kept + [e] + back)
    ensures e !in kept && e !in back
  {
    var ns, k := kept + [e] + back, |kept|;
    assert ns[k] == e;
    forall j | 0 <= j < |kept| ensures kept[j] != e { assert ns[j] == kept[j]; }
    forall j | 0 <= j < |back| ensures back[j] != e { assert ns[k + 1 + j] == back[j]; }
  }

  ghost function LastOf(ns: seq<Node>): Node? {
    if ns == [] then null else ns[|ns| - 1]
  }

  lemma ValuesTail(ns: seq<Node>, es: seq<Entry>, i: nat)
    requires ns != [] && i + |ns| == |es| && Values(ns) == es[i..]
    ensures ns[0].entry == es[i] && Values(ns[1..]) == es[i + 1..]
  {
    assert es[i..][0] == es[i];
    forall k | 0 <= k < |ns| - 1 ensures ns[1..][k].entry == es[i + 1..][k] { assert es[i..][k + 1] == es[i + 1..][k]; }
    ValuesSame(ns[1..], es[i + 1..]);
  }

  lemma SweepStep(w: Sweep, es: seq<Entry>, i: nat, x: Context, slots: seq<Slot>, now: int)
    requires |slots| > 0 && i < |es|
    ensures SweepTo(w, es, i + 1, x, slots, now) == SweepEntry(SweepTo(w, es, i, x, slots, now), es[i], x, slots, now)
  {
  }

  lemma NothingBefore(w: Sweep, ns: seq<Node>, es: seq<Entry>, x: Context, slots: seq<Slot>, now: int)
    requires |slots| > 0
    ensures SweepTo(w, es, 0, x, slots, now) == w && Values([]) == [] && LastOf([]) == null
    ensures [] + ns == ns && es[0..] == es
  {
  }

  lemma Unsplice<T>(x: seq<T>, y: seq<T>)
    requires y != []
    ensures x + y == x + [y[0]] + y[1..]
  {
  }

  lemma AfterSplice(kept: seq<Node>, e: Node, back: seq<Node>)
    ensures After(kept + [e] + back, |kept|) == (if back == [] then null else back[0])
  {
  }

  lemma Splice<T>(x: seq<T>, e: T, y: seq<T>)
    ensures var (s, k) := (x + [e] + y, |x|);
      s[k] == e && s[..k] == x && s[k + 1..] == y
  {
  }
}
