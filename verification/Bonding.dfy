/** Weighted path rotation (internal/bonding/bonding.go): each datagram goes to the live
    weighted path with the most credit left, and credits refill when a round is spent.
    With a fixed live set every path carries exactly its share of every round. */
module Bonding {
  import opened Arith
  import opened FlowTypes

  datatype PathState = PathState(index: int, weight: int, priority: nat, wCount: int, seen: bool, lastSeen: int)

  datatype Group = Group(paths: seq<PathState>, timeout: int) {
    /** Not proven dead; a path never heard from counts as live. */
    predicate Sendable(i: nat, now: int)
      requires i < |paths|
    {
      !(paths[i].seen && now - paths[i].lastSeen > timeout)
    }

    predicate Live(i: nat, now: int)
      requires i < |paths|
    {
      paths[i].weight > 0 && Sendable(i, now)
    }
  }

  // ---- the election ----

  /** The first of the most credited live paths among the first n. */
  function BestTo(g: Group, now: int, n: nat): (r: Option<nat>)
    requires n <= |g.paths|
    ensures r.Some? ==> r.value < n
  {
    if n == 0 then None else
    var b := BestTo(g, now, n - 1);
    if !g.Live(n - 1, now) then b
    else if b.None? || g.paths[n - 1].wCount > g.paths[b.value].wCount then Some(n - 1)
    else b
  }

  function Best(g: Group, now: int): (r: Option<nat>)
    ensures r.Some? ==> r.value < |g.paths|
  {
    BestTo(g, now, |g.paths|)
  }

  /** What being elected means: live, no live path with more credit, and none before it
      with as much. */
  predicate Elected(g: Group, now: int, n: nat, b: nat)
    requires b < n <= |g.paths|
  {
    && g.Live(b, now)
    && (forall i :: 0 <= i < n && g.Live(i, now) ==> g.paths[i].wCount <= g.paths[b].wCount)
    && (forall i :: 0 <= i < b && g.Live(i, now) ==> g.paths[i].wCount < g.paths[b].wCount)
  }

  lemma {:induction false} BestIs(g: Group, now: int, n: nat)
    requires n <= |g.paths|
    ensures BestTo(g, now, n).Some? ==> Elected(g, now, n, BestTo(g, now, n).value)
    ensures BestTo(g, now, n).None? ==> forall i :: 0 <= i < n ==> !g.Live(i, now)
  {
    if n > 0 { BestIs(g, now, n - 1); }
  }

  predicate HasWeighted(g: Group) { exists i :: 0 <= i < |g.paths| && g.paths[i].weight > 0 }

  function Refill(g: Group, now: int): (r: Group)
    ensures |r.paths| == |g.paths|
  {
    g.(paths := seq(|g.paths|, i requires 0 <= i < |g.paths| =>
         if g.Live(i, now) then g.paths[i].(wCount := g.paths[i].weight) else g.paths[i]))
  }

  function Spend(g: Group, b: nat): Group
    requires b < |g.paths|
  {
    g.(paths := g.paths[b := g.paths[b].(wCount := g.paths[b].wCount - 1)])
  }

  /** Elect one path for the next datagram. */
  function Select(g: Group, now: int): (r: (Group, Option<nat>))
    ensures |r.0.paths| == |g.paths|
    ensures r.1.Some? ==> r.1.value < |g.paths|
  {
    if !HasWeighted(g) || Best(g, now).None? then (g, None) else
    var b := Best(g, now).value;
    if g.paths[b].wCount <= 0 then
      var g1 := Refill(g, now);
      RefillLives(g, now);
      BestIs(g, now, |g.paths|);
      BestIs(g1, now, |g1.paths|);
      assert g1.Live(b, now);
      var b1 := Best(g1, now).value;
      (Spend(g1, b1), Some(b1))
    else (Spend(g, b), Some(b))
  }

  lemma RefillLives(g: Group, now: int)
    ensures forall i :: 0 <= i < |g.paths| ==> Refill(g, now).Live(i, now) == g.Live(i, now)
  {
  }

  /** Every path regains full credit. */
  function Restart(g: Group): (r: Group)
    ensures |r.paths| == |g.paths|
  {
    g.(paths := seq(|g.paths|, i requires 0 <= i < |g.paths| => g.paths[i].(wCount := g.paths[i].weight)))
  }

  function SetWeight(g: Group, index: int, weight: int): Group {
    if !Registered(g, index) then g else
    var i := Where(g, index);
    Restart(g.(paths := g.paths[i := g.paths[i].(weight := weight)]))
  }

  predicate Registered(g: Group, index: int) { exists i :: 0 <= i < |g.paths| && g.paths[i].index == index }

  /** The first path registered under index. */
  function Where(g: Group, index: int): (r: nat)
    requires Registered(g, index)
    ensures r < |g.paths| && g.paths[r].index == index
    ensures forall i :: 0 <= i < r ==> g.paths[i].index != index
  {
    WhereFrom(g, index, 0)
  }

  function WhereFrom(g: Group, index: int, n: nat): (r: nat)
    requires n <= |g.paths| && exists i :: n <= i < |g.paths| && g.paths[i].index == index
    ensures n <= r < |g.paths| && g.paths[r].index == index
    ensures forall i :: n <= i < r ==> g.paths[i].index != index
    decreases |g.paths| - n
  {
    if g.paths[n].index == index then n else WhereFrom(g, index, n + 1)
  }

  function AddPath(g: Group, index: int, weight: int, priority: nat): Group {
    if Registered(g, index) then
      var i := Where(g, index);
      g.(paths := g.paths[i := g.paths[i].(weight := weight, priority := priority, wCount := weight)])
    else g.(paths := g.paths + [PathState(index, weight, priority, weight, false, 0)])
  }

  function Observe(g: Group, index: int, now: int): Group {
    if !Registered(g, index) then g else
    var i := Where(g, index);
    g.(paths := g.paths[i := g.paths[i].(seen := true, lastSeen := now)])
  }

  // ---- what every operation keeps ----

  /** A weighted path's credit lies between nothing and its weight. */
  predicate Credited(g: Group) {
    && (forall i :: 0 <= i < |g.paths| && g.paths[i].weight > 0 ==> 0 <= g.paths[i].wCount <= g.paths[i].weight)
    && (forall i, j :: 0 <= i < j < |g.paths| ==> g.paths[i].index != g.paths[j].index)
  }

  /** Whatever the clock says and whichever paths have died, an election keeps every
      credit in range and never elects a dead or unweighted path. */
  lemma SelectKeeps(g: Group, now: int)
    requires Credited(g)
    ensures Credited(Select(g, now).0)
    ensures Select(g, now).1.Some? ==> g.Live(Select(g, now).1.value, now)
    ensures Select(g, now).1.None? <==> forall i :: 0 <= i < |g.paths| ==> !g.Live(i, now)
  {
    hide BestTo, Registered;
    BestIs(g, now, |g.paths|);
    var g1 := Refill(g, now);
    BestIs(g1, now, |g.paths|);
    RefillLives(g, now);
    if Best(g, now).Some? {
      assert HasWeighted(g);
      assert g1.Live(Best(g, now).value, now);
    }
  }

  lemma RestartKeeps(g: Group)
    requires forall i, j :: 0 <= i < j < |g.paths| ==> g.paths[i].index != g.paths[j].index
    ensures Credited(Restart(g))
  {
  }

  lemma SetWeightKeeps(g: Group, index: int, weight: int)
    requires Credited(g)
    ensures Credited(SetWeight(g, index, weight))
  {
    hide Restart, Credited;
    assert forall i, j :: 0 <= i < j < |g.paths| ==> g.paths[i].index != g.paths[j].index by { CreditedDistinct(g); }
    if Registered(g, index) {
      var i := Where(g, index);
      RestartKeeps(g.(paths := g.paths[i := g.paths[i].(weight := weight)]));
    }
  }

  lemma CreditedDistinct(g: Group)
    requires Credited(g)
    ensures forall i, j :: 0 <= i < j < |g.paths| ==> g.paths[i].index != g.paths[j].index
  {
  }

  lemma AddPathKeeps(g: Group, index: int, weight: int, priority: nat)
    requires Credited(g)
    ensures Credited(AddPath(g, index, weight, priority))
  {
  }

  lemma ObserveKeeps(g: Group, index: int, now: int)
    requires Credited(g)
    ensures Credited(Observe(g, index, now))
  {
  }

  lemma OthersKeep(g: Group, index: int, weight: int, priority: nat, now: int)
    requires Credited(g)
    ensures Credited(SetWeight(g, index, weight)) && Credited(AddPath(g, index, weight, priority))
    ensures Credited(Observe(g, index, now))
  {
    hide Credited, SetWeight, AddPath, Observe;
    SetWeightKeeps(g, index, weight);
    AddPathKeeps(g, index, weight, priority);
    ObserveKeeps(g, index, now);
  }

  // ---- which paths are live, from the calls alone ----

  /** A call: register, set a weight, hear from a path, or elect. */
  datatype Act =
    | Add(index: int, weight: int, priority: nat)
    | Weigh(index: int, weight: int)
    | Hear(index: int, now: int)
    | Elect(now: int)

  function Do(g: Group, a: Act): Group {
    match a
    case Add(index, weight, priority) => AddPath(g, index, weight, priority)
    case Weigh(index, weight) => SetWeight(g, index, weight)
    case Hear(index, now) => Observe(g, index, now)
    case Elect(now) => Select(g, now).0
  }

  function DoAll(g: Group, acts: seq<Act>): Group {
    if acts == [] then g else Do(DoAll(g, Most(acts)), Last(acts))
  }

  predicate Joined(acts: seq<Act>, index: int) {
    acts != [] && (Joined(Most(acts), index) || (Last(acts).Add? && Last(acts).index == index))
  }

  /** The weight a path was last given. */
  function Given(acts: seq<Act>, index: int): int {
    if acts == [] then 0 else
    match Last(acts)
    case Add(i, w, _) => if i == index then w else Given(Most(acts), index)
    case Weigh(i, w) => if i == index then w else Given(Most(acts), index)
    case _ => Given(Most(acts), index)
  }

  /** When a registered path was last heard from. */
  function HeardAt(acts: seq<Act>, index: int): Option<int> {
    if acts == [] then None
    else if Last(acts).Hear? && Last(acts).index == index && Joined(Most(acts), index) then Some(Last(acts).now)
    else HeardAt(Most(acts), index)
  }

  /** A path as the calls describe it. */
  predicate AsCalled(p: PathState, acts: seq<Act>) {
    && p.weight == Given(acts, p.index)
    && HeardAt(acts, p.index) == if p.seen then Some(p.lastSeen) else None
  }

  ghost predicate Described(g: Group, acts: seq<Act>) {
    && (forall index :: Joined(acts, index) <==> Registered(g, index))
    && forall i :: 0 <= i < |g.paths| ==> AsCalled(g.paths[i], acts)
  }

  lemma NeverHeard(acts: seq<Act>, index: int)
    requires !Joined(acts, index)
    ensures HeardAt(acts, index) == None
  {
  }

  /** An operation on one path leaves the others as they were described. */
  lemma OthersDescribed(g: Group, acts: seq<Act>, g': Group)
    requires acts != [] && Described(g, Most(acts)) && !Last(acts).Elect? && Credited(g)
    requires |g'.paths| == |g.paths|
    requires forall i :: 0 <= i < |g.paths| ==> g'.paths[i].index == g.paths[i].index
    requires forall i :: 0 <= i < |g.paths| && g.paths[i].index != Last(acts).index ==>
      g'.paths[i].(wCount := g.paths[i].wCount) == g.paths[i]
    requires forall i :: 0 <= i < |g.paths| && g.paths[i].index == Last(acts).index ==> AsCalled(g'.paths[i], acts)
    requires Last(acts).Add? ==> Registered(g, Last(acts).index)
    ensures Described(g', acts)
  {
    forall i | 0 <= i < |g.paths| ensures AsCalled(g'.paths[i], acts) { assert AsCalled(g.paths[i], Most(acts)); }
    forall index ensures Joined(acts, index) <==> Registered(g', index) {
      assert Registered(g, index) <==> Registered(g', index) by { SameRegistered(g, g', index); }
    }
  }

  lemma SameRegistered(g: Group, g': Group, index: int)
    requires |g'.paths| == |g.paths| && forall i :: 0 <= i < |g.paths| ==> g'.paths[i].index == g.paths[i].index
    ensures Registered(g, index) <==> Registered(g', index)
  {
    if i :| 0 <= i < |g.paths| && g.paths[i].index == index { assert g'.paths[i].index == index; }
    if i :| 0 <= i < |g.paths| && g'.paths[i].index == index { assert g.paths[i].index == index; }
  }

  lemma AddDescribed(g: Group, acts: seq<Act>)
    requires acts != [] && Last(acts).Add? && Described(g, Most(acts)) && Credited(g)
    ensures Described(Do(g, Last(acts)), acts)
  {
    var (a, g') := (Last(acts), Do(g, Last(acts)));
    if Registered(g, a.index) {
      var w := Where(g, a.index);
      assert AsCalled(g.paths[w], Most(acts));
      OthersDescribed(g, acts, g');
    } else {
      NeverHeard(Most(acts), a.index);
      forall i | 0 <= i < |g'.paths| ensures AsCalled(g'.paths[i], acts) {
        if i < |g.paths| { assert AsCalled(g.paths[i], Most(acts)); }
      }
      forall index ensures Joined(acts, index) <==> Registered(g', index) {
        if Registered(g, index) {
          var i :| 0 <= i < |g.paths| && g.paths[i].index == index;
          assert g'.paths[i].index == index;
        }
        assert g'.paths[|g.paths|].index == a.index;
      }
    }
  }

  lemma ElectDescribed(g: Group, acts: seq<Act>)
    requires acts != [] && Last(acts).Elect? && Described(g, Most(acts))
    ensures Described(Do(g, Last(acts)), acts)
  {
    hide Select;
    var g' := Do(g, Last(acts));
    SelectShape(g, Last(acts).now);
    forall i | 0 <= i < |g.paths| ensures AsCalled(g'.paths[i], acts) && g'.paths[i].index == g.paths[i].index {
      assert AsCalled(g.paths[i], Most(acts));
    }
    forall index ensures Joined(acts, index) <==> Registered(g', index) { SameRegistered(g, g', index); }
  }

  lemma WeighDescribed(g: Group, acts: seq<Act>)
    requires acts != [] && Last(acts).Weigh? && Described(g, Most(acts)) && Credited(g)
    ensures Described(Do(g, Last(acts)), acts)
  {
    var (a, g') := (Last(acts), Do(g, Last(acts)));
    if Registered(g, a.index) { assert AsCalled(g.paths[Where(g, a.index)], Most(acts)); }
    OthersDescribed(g, acts, g');
  }

  lemma HearDescribed(g: Group, acts: seq<Act>)
    requires acts != [] && Last(acts).Hear? && Described(g, Most(acts)) && Credited(g)
    ensures Described(Do(g, Last(acts)), acts)
  {
    var (a, g') := (Last(acts), Do(g, Last(acts)));
    if Registered(g, a.index) { assert AsCalled(g.paths[Where(g, a.index)], Most(acts)); }
    OthersDescribed(g, acts, g');
  }

  /** Over every run of calls a group holds exactly the paths registered, each with the
      weight last given and the time last heard. */
  lemma {:induction false} RunDescribed(timeout: int, acts: seq<Act>)
    ensures var g := DoAll(Group([], timeout), acts);
      Credited(g) && g.timeout == timeout && Described(g, acts)
  {
    hide Credited, Described, AddPath, SetWeight, Observe, Select;
    if acts == [] {
      EmptyDescribed(timeout);
    } else {
      RunDescribed(timeout, Most(acts));
      var g := DoAll(Group([], timeout), Most(acts));
      ActKeeps(g, Last(acts));
      match Last(acts)
      case Add(_, _, _) => AddDescribed(g, acts);
      case Weigh(_, _) => WeighDescribed(g, acts);
      case Hear(_, _) => HearDescribed(g, acts);
      case Elect(_) => ElectDescribed(g, acts);
    }
  }

  lemma EmptyDescribed(timeout: int)
    ensures Credited(Group([], timeout)) && Described(Group([], timeout), [])
  {
  }

  lemma ActKeeps(g: Group, a: Act)
    requires Credited(g)
    ensures Credited(Do(g, a)) && Do(g, a).timeout == g.timeout
  {
    hide Credited, Select, Best;
    match a
    case Add(index, weight, priority) => OthersKeep(g, index, weight, priority, 0);
    case Weigh(index, weight) => OthersKeep(g, index, weight, 0, 0);
    case Hear(index, now) => OthersKeep(g, index, 0, 0, now);
    case Elect(now) =>
      SelectKeeps(g, now);
      SelectShape(g, now);
  }

  /** A registered path may carry traffic exactly when its weight is positive and it was
      never heard from or was heard within the timeout, whatever else was called. */
  lemma LiveUntilTimeout(timeout: int, acts: seq<Act>, i: nat, now: int)
    requires i < |DoAll(Group([], timeout), acts).paths|
    ensures var g := DoAll(Group([], timeout), acts);
      var index := g.paths[i].index;
      && Joined(acts, index)
      && (g.Live(i, now) <==>
            Given(acts, index) > 0 && (HeardAt(acts, index).None? || now - HeardAt(acts, index).value <= timeout))
  {
    hide DoAll, Joined, Given, HeardAt, Credited;
    RunDescribed(timeout, acts);
    var g := DoAll(Group([], timeout), acts);
    assert AsCalled(g.paths[i], acts);
    assert Registered(g, g.paths[i].index);
  }

  // ---- exact shares ----

  /** The live paths of g, if the same at each of these instants. */
  predicate SteadyLive(g: Group, live: set<nat>, now: int) {
    forall i :: 0 <= i < |g.paths| ==> (g.Live(i, now) <==> i in live)
  }

  /** The weights of the live ones among the first n paths. */
  function TotalWeight(g: Group, live: set<nat>, n: nat): int
    requires n <= |g.paths|
  {
    if n == 0 then 0 else TotalWeight(g, live, n - 1) + (if n - 1 in live then g.paths[n - 1].weight else 0)
  }

  /** The credit they have spent. */
  function Spent(g: Group, live: set<nat>, n: nat): int
    requires n <= |g.paths|
  {
    if n == 0 then 0 else
    Spent(g, live, n - 1) + (if n - 1 in live then g.paths[n - 1].weight - g.paths[n - 1].wCount else 0)
  }

  /** q rounds are over, and in the present one each path has been chosen as often as
      it has spent credit. */
  predicate InRound(g: Group, live: set<nat>, q: nat, chosen: seq<nat>, n: nat) {
    && |chosen| == |g.paths|
    && (forall i :: 0 <= i < |g.paths| && i in live ==>
          && 0 <= g.paths[i].wCount <= g.paths[i].weight && g.paths[i].weight > 0
          && chosen[i] == Mul(q, g.paths[i].weight) + g.paths[i].weight - g.paths[i].wCount)
    && (forall i :: 0 <= i < |g.paths| && i !in live ==> chosen[i] == 0)
    && n == Mul(q, TotalWeight(g, live, |g.paths|)) + Spent(g, live, |g.paths|)
  }

  lemma {:induction false} SpentOne(g: Group, live: set<nat>, b: nat, n: nat)
    requires b < |g.paths| && n <= |g.paths| && b in live
    ensures Spent(Spend(g, b), live, n) == Spent(g, live, n) + (if b < n then 1 else 0)
    ensures TotalWeight(Spend(g, b), live, n) == TotalWeight(g, live, n)
    decreases n
  {
    if n > 0 { SpentOne(g, live, b, n - 1); }
  }

  lemma {:induction false} SpentAll(g: Group, live: set<nat>, n: nat)
    requires n <= |g.paths| && forall i :: 0 <= i < n && i in live ==> g.paths[i].wCount == 0
    ensures Spent(g, live, n) == TotalWeight(g, live, n)
    decreases n
  {
    if n > 0 { SpentAll(g, live, n - 1); }
  }

  lemma {:induction false} SpentNone(g: Group, live: set<nat>, now: int, n: nat)
    requires n <= |g.paths| && SteadyLive(g, live, now)
    ensures Spent(Refill(g, now), live, n) == 0
    ensures TotalWeight(Refill(g, now), live, n) == TotalWeight(g, live, n)
    decreases n
  {
    if n > 0 { SpentNone(g, live, now, n - 1); }
  }

  /** A spent round is a fresh one, one round on. */
  lemma NewRound(g: Group, live: set<nat>, q: nat, chosen: seq<nat>, n: nat, now: int)
    requires InRound(g, live, q, chosen, n) && SteadyLive(g, live, now)
    requires forall i :: 0 <= i < |g.paths| && i in live ==> g.paths[i].wCount == 0
    ensures InRound(Refill(g, now), live, q + 1, chosen, n)
  {
    hide Mul;
    var N := |g.paths|;
    SpentAll(g, live, N);
    SpentNone(g, live, now, N);
    MulStep(q, TotalWeight(g, live, N));
    forall i | 0 <= i < N && i in live ensures Mul(q + 1, g.paths[i].weight) == Mul(q, g.paths[i].weight) + g.paths[i].weight {
      MulStep(q, g.paths[i].weight);
    }
  }

  lemma SpendInRound(g: Group, live: set<nat>, q: nat, chosen: seq<nat>, n: nat, b: nat)
    requires InRound(g, live, q, chosen, n) && b < |g.paths| && b in live && g.paths[b].wCount > 0
    ensures InRound(Spend(g, b), live, q, chosen[b := chosen[b] + 1], n + 1)
  {
    hide Mul;
    SpentOne(g, live, b, |g.paths|);
  }

  /** One election keeps the account. */
  lemma ElectInRound(g: Group, live: set<nat>, q: nat, chosen: seq<nat>, n: nat, now: int) returns (q': nat)
    requires InRound(g, live, q, chosen, n) && SteadyLive(g, live, now)
    requires exists i :: 0 <= i < |g.paths| && i in live
    ensures var (g', b) := Select(g, now);
      b.Some? && InRound(g', live, q', chosen[b.value := chosen[b.value] + 1], n + 1)
  {
    hide InRound;
    BestIs(g, now, |g.paths|);
    RefillLives(g, now);
    var g1 := Refill(g, now);
    BestIs(g1, now, |g.paths|);
    InRoundShape(g, live, q, chosen, n);
    var b := Best(g, now).value;
    if g.paths[b].wCount <= 0 {
      NewRound(g, live, q, chosen, n, now);
      q' := q + 1;
      assert g1.Live(b, now);
      SpendInRound(g1, live, q', chosen, n, Best(g1, now).value);
    } else {
      q' := q;
      SpendInRound(g, live, q', chosen, n, b);
    }
  }

  lemma InRoundShape(g: Group, live: set<nat>, q: nat, chosen: seq<nat>, n: nat)
    requires InRound(g, live, q, chosen, n)
    ensures |chosen| == |g.paths|
    ensures forall i :: 0 <= i < |g.paths| && i in live ==> 0 <= g.paths[i].wCount && g.paths[i].weight > 0
  {
  }

  lemma SelectShape(g: Group, now: int)
    ensures var g' := Select(g, now).0;
      && |g'.paths| == |g.paths| && g'.timeout == g.timeout
      && forall i :: 0 <= i < |g.paths| ==> g'.paths[i] == g.paths[i].(wCount := g'.paths[i].wCount)
  {
    hide BestTo;
  }

  /** A run of elections, and how often each path was chosen. */
  function Elections(g: Group, nows: seq<int>): (Group, seq<nat>)
    ensures |Elections(g, nows).1| == |Elections(g, nows).0.paths| == |g.paths|
  {
    if nows == [] then (g, seq(|g.paths|, _ => 0)) else
    var n := |nows| - 1;
    var (g1, chosen) := Elections(g, nows[..n]);
    var (g2, b) := Select(g1, nows[n]);
    (g2, if b.Some? then chosen[b.value := chosen[b.value] + 1] else chosen)
  }

  /** Weights, and so the live set at any instant, do not change in a run. */
  lemma {:induction false} ElectionsShape(g: Group, nows: seq<int>)
    ensures var g' := Elections(g, nows).0;
      && |g'.paths| == |g.paths| && g'.timeout == g.timeout
      && forall i :: 0 <= i < |g.paths| ==> g'.paths[i] == g.paths[i].(wCount := g'.paths[i].wCount)
  {
    hide Select;
    if nows != [] {
      ElectionsShape(g, nows[..|nows| - 1]);
      SelectShape(Elections(g, nows[..|nows| - 1]).0, nows[|nows| - 1]);
    }
  }

  /** The start of a round. */
  predicate FreshRound(g: Group, live: set<nat>) {
    forall i :: 0 <= i < |g.paths| && i in live ==> g.paths[i].wCount == g.paths[i].weight > 0
  }

  /** Every path has its full credit, as in a group just built. */
  predicate FullCredit(g: Group) {
    forall i :: 0 <= i < |g.paths| ==> g.paths[i].wCount == g.paths[i].weight
  }

  /** A new group has full credit; adding paths keeps it, re-weighting one restores it;
      and full credit is the start of a round, whichever weighted paths are live. */
  lemma RoundsStartFresh(g: Group, index: int, weight: int, priority: nat, live: set<nat>)
    ensures FullCredit(g.(paths := []))
    ensures FullCredit(g) ==> FullCredit(AddPath(g, index, weight, priority))
    ensures Registered(g, index) ==> FullCredit(SetWeight(g, index, weight))
    ensures FullCredit(g) && (forall i :: 0 <= i < |g.paths| && i in live ==> g.paths[i].weight > 0) ==> FreshRound(g, live)
  {
    if Registered(g, index) {
      var i := Where(g, index);
      var set1 := g.(paths := g.paths[i := g.paths[i].(weight := weight)]);
      assert SetWeight(g, index, weight) == Restart(set1);
    }
  }

  lemma {:induction false} RunInRound(g: Group, live: set<nat>, nows: seq<int>) returns (q: nat)
    requires FreshRound(g, live) && (exists i :: 0 <= i < |g.paths| && i in live)
    requires forall t :: 0 <= t < |nows| ==> SteadyLive(g, live, nows[t])
    ensures InRound(Elections(g, nows).0, live, q, Elections(g, nows).1, |nows|)
  {
    hide InRound, Select, FreshRound;
    if nows == [] {
      q := 0;
      StartInRound(g, live);
    } else {
      var n := |nows| - 1;
      q := RunInRound(g, live, nows[..n]);
      var (g1, chosen) := Elections(g, nows[..n]);
      ElectionsShape(g, nows[..n]);
      StillLive(g, g1, live, nows[n]);
      q := ElectInRound(g1, live, q, chosen, n, nows[n]);
    }
  }

  lemma StillLive(g: Group, g1: Group, live: set<nat>, now: int)
    requires |g1.paths| == |g.paths| && g1.timeout == g.timeout && SteadyLive(g, live, now)
    requires forall i :: 0 <= i < |g.paths| ==> g1.paths[i] == g.paths[i].(wCount := g1.paths[i].wCount)
    ensures SteadyLive(g1, live, now)
  {
  }

  lemma StartInRound(g: Group, live: set<nat>)
    requires FreshRound(g, live)
    ensures InRound(g, live, 0, seq(|g.paths|, _ => 0), 0)
  {
    SpentZero(g, live, |g.paths|);
  }

  lemma {:induction false} SpentZero(g: Group, live: set<nat>, n: nat)
    requires FreshRound(g, live) && n <= |g.paths|
    ensures Spent(g, live, n) == 0
    decreases n
  {
    if n > 0 { SpentZero(g, live, n - 1); }
  }

  lemma {:induction false} SpentRange(g: Group, live: set<nat>, n: nat)
    requires n <= |g.paths|
    requires forall i :: 0 <= i < |g.paths| && i in live ==> 0 <= g.paths[i].wCount <= g.paths[i].weight
    ensures 0 <= Spent(g, live, n) <= TotalWeight(g, live, n)
    ensures Spent(g, live, n) == TotalWeight(g, live, n) ==> forall i :: 0 <= i < n && i in live ==> g.paths[i].wCount == 0
    ensures Spent(g, live, n) == 0 ==> forall i :: 0 <= i < n && i in live ==> g.paths[i].wCount == g.paths[i].weight
    decreases n
  {
    if n > 0 { SpentRange(g, live, n - 1); }
  }

  lemma {:induction false} WeightPositive(g: Group, live: set<nat>, n: nat)
    requires n <= |g.paths| && forall i :: 0 <= i < n && i in live ==> g.paths[i].weight > 0
    ensures TotalWeight(g, live, n) >= 0
    ensures (exists i :: 0 <= i < n && i in live) ==> TotalWeight(g, live, n) > 0
    decreases n
  {
    if n > 0 { WeightPositive(g, live, n - 1); }
  }

  /** From a fresh round, with the same paths live throughout: after k whole rounds path
      i has been chosen exactly k * weight times, and in between never less than that
      and never more than one weight above it. Other paths are never chosen. */
  lemma ExactShares(g: Group, live: set<nat>, nows: seq<int>, k: nat, i: nat)
    requires FreshRound(g, live) && i < |g.paths| && (exists j :: 0 <= j < |g.paths| && j in live)
    requires forall t :: 0 <= t < |nows| ==> SteadyLive(g, live, nows[t])
    requires var W := TotalWeight(g, live, |g.paths|); Mul(k, W) <= |nows| < Mul(k + 1, W)
    ensures var c := Elections(g, nows).1[i];
      && (i !in live ==> c == 0)
      && (i in live ==> Mul(k, g.paths[i].weight) <= c <= Mul(k, g.paths[i].weight) + g.paths[i].weight)
      && (i in live && |nows| == Mul(k, TotalWeight(g, live, |g.paths|)) ==> c == Mul(k, g.paths[i].weight))
  {
    hide Mul, Elections;
    var q := RunInRound(g, live, nows);
    var (g', chosen) := Elections(g, nows);
    ElectionsShape(g, nows);
    SameWeight(g, g', live, |g.paths|);
    var W := TotalWeight(g, live, |g.paths|);
    var s := Spent(g', live, |g.paths|);
    SpentRange(g', live, |g.paths|);
    WeightPositive(g, live, |g.paths|);
    WhichRound(q, k, W, s);
    if i in live && k == q + 1 { MulStep(q, g.paths[i].weight); }
  }

  lemma {:induction false} SameWeight(g: Group, g': Group, live: set<nat>, n: nat)
    requires n <= |g.paths| == |g'.paths| && forall i :: 0 <= i < |g.paths| ==> g'.paths[i].weight == g.paths[i].weight
    ensures TotalWeight(g', live, n) == TotalWeight(g, live, n)
    decreases n
  {
    if n > 0 { SameWeight(g, g', live, n - 1); }
  }

  /** q rounds and s more is k whole rounds and less than one more. */
  lemma WhichRound(q: nat, k: nat, W: int, s: int)
    requires W > 0 && 0 <= s <= W && Mul(k, W) <= Mul(q, W) + s < Mul(k + 1, W)
    ensures (k == q && s < W) || (k == q + 1 && s == W)
  {
    MulStep(q, W);
    MulStep(k, W);
    if k < q { MulMono(k + 1, q, W); }
    if k > q + 1 { MulMono(q + 2, k, W); MulStep(q + 1, W); }
  }

  // ---- the group as the source keeps it ----

  class Path {
    const index: int
    var weight: int
    var priority: nat
    var wCount: int
    var seen: bool
    var lastSeen: int

    function Abs(): PathState
      reads this
    {
      PathState(index, weight, priority, wCount, seen, lastSeen)
    }

    constructor (index: int, weight: int, priority: nat)
      ensures Abs() == PathState(index, weight, priority, weight, false, 0)
    {
      this.index, this.weight, this.priority, wCount, seen, lastSeen := index, weight, priority, weight, false, 0;
    }
  }

  class PathGroup {
    const timeout: int
    var paths: seq<Path>

    ghost predicate Valid()
      reads this
    {
      forall i, j :: 0 <= i < j < |paths| ==> paths[i] != paths[j]
    }

    ghost function Abs(): Group
      reads this, paths
    {
      Group(seq(|paths|, i requires 0 <= i < |paths| reads this, paths => paths[i].Abs()), timeout)
    }

    constructor (timeout: int)
      ensures Valid() && Abs() == Group([], timeout) && paths == []
    {
      this.timeout, paths := timeout, [];
    }

    /** The position of the path registered under index, or the number of paths. */
    method Find(index: int) returns (i: nat)
      ensures i <= |paths|
      ensures i < |paths| ==> Registered(Abs(), index) && i == Where(Abs(), index)
      ensures i == |paths| ==> !Registered(Abs(), index)
    {
      i := 0;
      while i < |paths|
        invariant 0 <= i <= |paths| && forall k :: 0 <= k < i ==> Abs().paths[k].index != index
      {
        if paths[i].index == index {
          FirstIs(Abs(), index, i);
          return;
        }
        i := i + 1;
      }
    }

    method RegisterPath(index: int, weight: int, priority: nat)
      requires Valid()
      modifies this, paths
      ensures Valid() && Abs() == AddPath(old(Abs()), index, weight, priority)
    {
      ghost var was := Abs().paths;
      var i := Find(index);
      if i < |paths| {
        var p := paths[i];
        p.weight, p.priority, p.wCount := weight, priority, weight;
        assert Abs().paths == was[i := was[i].(weight := weight, priority := priority, wCount := weight)];
        return;
      }
      var p := new Path(index, weight, priority);
      paths := paths + [p];
      assert Abs().paths == was + [PathState(index, weight, priority, weight, false, 0)];
    }

    method ObservePath(index: int, now: int)
      requires Valid()
      modifies paths
      ensures Valid() && Abs() == Observe(old(Abs()), index, now)
    {
      ghost var was := Abs().paths;
      var i := Find(index);
      if i == |paths| {
        return;
      }
      var p := paths[i];
      p.seen, p.lastSeen := true, now;
      assert Abs().paths == was[i := was[i].(seen := true, lastSeen := now)];
    }

    method ChangeWeight(index: int, weight: int)
      requires Valid()
      modifies paths
      ensures Valid() && Abs() == SetWeight(old(Abs()), index, weight)
    {
      hide Restart;
      ghost var was := Abs().paths;
      var k := Find(index);
      if k == |paths| {
        return;
      }
      paths[k].weight := weight;
      assert Abs().paths == was[k := was[k].(weight := weight)];
      RestartAll();
    }

    method RestartAll()
      requires Valid()
      modifies paths
      ensures Valid() && Abs() == Restart(old(Abs()))
    {
      ghost var was := Abs();
      for i := 0 to |paths|
        invariant |Abs().paths| == |was.paths|
        invariant forall j :: 0 <= j < i ==> Abs().paths[j] == Restart(was).paths[j]
        invariant forall j :: i <= j < |paths| ==> Abs().paths[j] == was.paths[j]
      {
        assert paths[i].Abs() == was.paths[i];
        paths[i].wCount := paths[i].weight;
      }
      assert Abs().paths == Restart(was).paths;
    }

    method BestWeighted(now: int) returns (best: Option<nat>)
      ensures best == Best(Abs(), now)
    {
      best := None;
      for i := 0 to |paths|
        invariant best == BestTo(Abs(), now, i)
      {
        var p := paths[i];
        if p.weight > 0 && !(p.seen && now - p.lastSeen > timeout) {
          if best.None? || p.wCount > paths[best.value].wCount {
            best := Some(i);
          }
        }
      }
    }

    method AnyWeighted() returns (r: bool)
      ensures r == HasWeighted(Abs())
    {
      for i := 0 to |paths|
        invariant forall k :: 0 <= k < i ==> Abs().paths[k].weight <= 0
      {
        if paths[i].weight > 0 {
          assert Abs().paths[i].weight > 0;
          return true;
        }
      }
      return false;
    }

    /** A new round for the live weighted paths. */
    method RefillAll(now: int)
      requires Valid()
      modifies paths
      ensures Valid() && Abs() == Refill(old(Abs()), now)
    {
      ghost var was := Abs();
      for i := 0 to |paths|
        invariant |Abs().paths| == |was.paths|
        invariant forall j :: 0 <= j < i ==> Abs().paths[j] == Refill(was, now).paths[j]
        invariant forall j :: i <= j < |paths| ==> Abs().paths[j] == was.paths[j]
      {
        var p := paths[i];
        assert p.Abs() == was.paths[i];
        if p.weight > 0 && !(p.seen && now - p.lastSeen > timeout) {
          p.wCount := p.weight;
        }
      }
      assert Abs().paths == Refill(was, now).paths;
    }

    /** Elect a path for the next datagram; the result is its position. */
    method SelectWeighted(now: int) returns (r: Option<nat>)
      requires Valid()
      modifies paths
      ensures Valid() && (Abs(), r) == Select(old(Abs()), now)
    {
      hide Best, Refill, Spend, HasWeighted;
      RefillElects(Abs(), now);
      var any := AnyWeighted();
      if !any {
        return None;
      }
      var best := BestWeighted(now);
      if best.None? {
        return None;
      }
      if paths[best.value].wCount <= 0 {
        RefillAll(now);
        best := BestWeighted(now);
      }
      SpendAt(best.value);
      return best;
    }

    method SpendAt(i: nat)
      requires Valid() && i < |paths|
      modifies paths
      ensures Valid() && Abs() == Spend(old(Abs()), i)
    {
      ghost var was := Abs();
      var p := paths[i];
      p.wCount := p.wCount - 1;
      assert Abs().paths == Spend(was, i).paths;
    }
  }

  /** Refilling leaves someone to elect. */
  lemma RefillElects(g: Group, now: int)
    ensures Best(g, now).Some? ==> Best(Refill(g, now), now).Some?
  {
    hide BestTo;
    BestIs(g, now, |g.paths|);
    BestIs(Refill(g, now), now, |g.paths|);
    RefillLives(g, now);
  }

  lemma FirstIs(g: Group, index: int, i: nat)
    requires i < |g.paths| && g.paths[i].index == index && forall k :: 0 <= k < i ==> g.paths[k].index != index
    ensures Registered(g, index) && Where(g, index) == i
  {
  }
}
