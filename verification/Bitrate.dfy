/** The sender's bit-rate averages and bandwidth gate (internal/flow/congestion.go). */
module Bitrate {
  import opened Arith
  import opened FlowTypes

  const SLOW_WINDOW: int := 1_000_000
  const FAST_WINDOW: int := 100_000

  /** Bits per second for some bytes over some microseconds. */
  function RateOf(bytes: nat, elapsed: int): nat
    requires elapsed > 0
  {
    8 * bytes * 1_000_000 / elapsed
  }

  /** One averaging window: bytes since `last`, and eight times the smoothed rate. */
  datatype Window = Window(bytes: nat, last: int, eightTimes: nat) {
    function Bps(): nat { eightTimes / 8 }

    /** The window has run its length by `now`. */
    predicate Expires(now: int, span: int) { now - last >= span }

    function Sample(now: int, n: nat): nat
      requires now > last
    {
      RateOf(bytes + n, now - last)
    }

    function Feed(now: int, n: nat, span: int): Window
      requires span > 0
    {
      if Expires(now, span) then Window(0, now, eightTimes - eightTimes / 8 + Sample(now, n))
      else this.(bytes := bytes + n)
    }
  }

  datatype Ewma = Ewma(slow: Window, fast: Window, seeded: bool) {
    /** The first observation opens both windows. */
    function Awake(now: int): Ewma {
      if seeded then this else Ewma(slow.(last := now), fast.(last := now), true)
    }

    function Feed(now: int, n: nat): Ewma {
      var e := Awake(now);
      e.(slow := e.slow.Feed(now, n, SLOW_WINDOW), fast := e.fast.Feed(now, n, FAST_WINDOW))
    }
  }

  const FRESH: Ewma := Ewma(Window(0, 0, 0), Window(0, 0, 0), false)

  predicate OverBudget(mode: CongestionMode, data: Ewma, retry: Ewma, maxKbps: int) {
    match mode
    case CongestionOff => false
    case CongestionAggressive => data.fast.Bps() + retry.fast.Bps() > maxKbps * 1000
    case CongestionNormal => data.slow.Bps() + retry.fast.Bps() > maxKbps * 1000
  }

  function WireBytes(payloadLen: nat): nat { payloadLen + 28 }

  // ---- the average never exceeds its samples ----

  /** A sequence of (instant, bytes) observations. */
  type Feeds = seq<(int, nat)>

  function FeedAll(w: Window, fs: Feeds, span: int): Window
    requires span > 0
  {
    if fs == [] then w else FeedAll(w, Most(fs), span).Feed(Last(fs).0, Last(fs).1, span)
  }

  /** Every sample taken while feeding fs is at most top. */
  predicate SamplesBelow(w: Window, fs: Feeds, span: int, top: nat)
    requires span > 0
  {
    fs == [] ||
    var v, f := FeedAll(w, Most(fs), span), Last(fs);
    SamplesBelow(w, Most(fs), span, top) && (v.Expires(f.0, span) ==> v.Sample(f.0, f.1) <= top)
  }

  /** From rest, the smoothed rate stays within the largest window sample so far. */
  lemma {:induction false} RateWithinSamples(w: Window, fs: Feeds, span: int, top: nat)
    requires span > 0 && w.eightTimes == 0 && SamplesBelow(w, fs, span, top)
    ensures FeedAll(w, fs, span).eightTimes <= 8 * top + 7
    ensures FeedAll(w, fs, span).Bps() <= top
  {
    if fs != [] { RateWithinSamples(w, Most(fs), span, top); }
  }

  // ---- idling drains it ----

  function Decay(e: nat): nat { e - e / 8 }

  function DecayN(e: nat, k: nat): nat {
    if k == 0 then e else DecayN(Decay(e), k - 1)
  }

  /** Windows that certainly suffice to drain e: logarithmic in e. */
  function DrainTime(e: nat): nat {
    if e < 128 then 121 else 6 + DrainTime(e / 2)
  }

  lemma {:induction false} DecayMonotone(a: nat, b: nat, k: nat)
    requires a <= b
    ensures DecayN(a, k) <= DecayN(b, k)
    decreases k
  {
    if k > 0 { DecayMonotone(Decay(a), Decay(b), k - 1); }
  }

  lemma {:induction false} DecayAdds(e: nat, j: nat, k: nat)
    ensures DecayN(e, j + k) == DecayN(DecayN(e, j), k)
    decreases j
  {
    if j > 0 { DecayAdds(Decay(e), j - 1, k); }
  }

  lemma SixHalve(e: nat)
    requires e >= 128
    ensures DecayN(e, 6) <= e / 2
  {
    var a := Decay(e);
    var b := Decay(a);
    var c := Decay(b);
    var d := Decay(c);
    var f := Decay(d);
    assert DecayN(e, 6) == DecayN(a, 5) == DecayN(b, 4) == DecayN(c, 3) == DecayN(d, 2) == DecayN(f, 1) == Decay(f);
  }

  /** Below 8 nothing changes; above it every window takes at least one off. */
  lemma {:induction false} SmallDrains(e: nat, k: nat)
    requires e <= 7 + k
    ensures DecayN(e, k) <= 7
    decreases k
  {
    if k > 0 { SmallDrains(Decay(e), k - 1); }
  }

  lemma {:induction false} Drains(e: nat, k: nat)
    requires k >= DrainTime(e)
    ensures DecayN(e, k) <= 7
    decreases e
  {
    if e < 128 {
      SmallDrains(e, k);
    } else {
      SixHalve(e);
      DecayAdds(e, 6, k - 6);
      DecayMonotone(DecayN(e, 6), e / 2, k - 6);
      Drains(e / 2, k - 6);
    }
  }

  // ---- and it reaches them ----

  /** The observations that close the window. */
  function ClosingFeeds(w: Window, fs: Feeds, span: int): nat
    requires span > 0
  {
    if fs == [] then 0 else
    ClosingFeeds(w, Most(fs), span) + (if FeedAll(w, Most(fs), span).Expires(Last(fs).0, span) then 1 else 0)
  }

  /** Every sample taken while feeding fs is at least low. */
  predicate SamplesAbove(w: Window, fs: Feeds, span: int, low: nat)
    requires span > 0
  {
    fs == [] ||
    var v, f := FeedAll(w, Most(fs), span), Last(fs);
    SamplesAbove(w, Most(fs), span, low) && (v.Expires(f.0, span) ==> v.Sample(f.0, f.1) >= low)
  }

  /** How far eight times the rate is below eight times low. */
  function Deficit(e: nat, low: nat): nat { if e >= 8 * low then 0 else 8 * low - e }

  /** A sample of at least low makes up an eighth of the deficit, and at least one. */
  lemma DeficitFalls(e: nat, low: nat, sample: nat)
    requires sample >= low
    ensures var d := Deficit(e, low); Deficit(e - e / 8 + sample, low) <= d - (d + 7) / 8
  {
  }

  /** The deficit left after k closings, each making up an eighth rounded up. */
  function Fill(d: nat, k: nat): nat {
    if k == 0 then d else Fill(d, k - 1) - (Fill(d, k - 1) + 7) / 8
  }

  lemma {:induction false} RateFills(w: Window, fs: Feeds, span: int, low: nat)
    requires span > 0 && SamplesAbove(w, fs, span, low)
    ensures Deficit(FeedAll(w, fs, span).eightTimes, low) <= Fill(Deficit(w.eightTimes, low), ClosingFeeds(w, fs, span))
  {
    if fs != [] {
      var v, f := FeedAll(w, Most(fs), span), Last(fs);
      RateFills(w, Most(fs), span, low);
      if v.Expires(f.0, span) { DeficitFalls(v.eightTimes, low, v.Sample(f.0, f.1)); }
    }
  }

  lemma {:induction false} FillWithin(d: nat, k: nat)
    ensures Fill(d, k) <= DecayN(d, k)
  {
    if k > 0 {
      FillWithin(d, k - 1);
      DecayAdds(d, k - 1, 1);
      assert DecayN(d, k) == Decay(DecayN(d, k - 1));
    }
  }

  lemma {:induction false} FillSteps(d: nat, k: nat, j: nat)
    requires Fill(d, k) <= j
    ensures Fill(d, k + j) == 0
    decreases j
  {
    if j > 0 { FillSteps(d, k + 1, j - 1); }
  }

  /** Closings that certainly bring a rate up to low. */
  function RiseTime(low: nat): nat { DrainTime(8 * low) + 7 }

  /** Enough windows that each sample at least low bring the rate up to low. */
  lemma RateReachesSamples(w: Window, fs: Feeds, span: int, low: nat)
    requires span > 0 && SamplesAbove(w, fs, span, low) && ClosingFeeds(w, fs, span) >= RiseTime(low)
    ensures FeedAll(w, fs, span).Bps() >= low
  {
    hide FeedAll, SamplesAbove, ClosingFeeds, Fill, DrainTime;
    var d, k := Deficit(w.eightTimes, low), ClosingFeeds(w, fs, span);
    RateFills(w, fs, span, low);
    FillWithin(d, k - 7);
    DecayMonotone(d, 8 * low, k - 7);
    Drains(8 * low, k - 7);
    FillSteps(d, k - 7, 7);
  }

  // ---- a steady stream is measured exactly ----

  /** n bytes every gap microseconds, k times after t. */
  function Steady(t: int, gap: nat, n: nat, k: nat): Feeds {
    if k == 0 then [] else Steady(t, gap, n, k - 1) + [(t + Mul(k, gap), n)]
  }

  /** The observations of a steady stream that fill a window. */
  function PerWindow(span: int, gap: int): nat
    requires span > 0 && gap > 0
  {
    (span + gap - 1) / gap
  }

  lemma PerWindowIs(span: int, gap: int, j: nat)
    requires span > 0 && gap > 0
    ensures PerWindow(span, gap) >= 1 && (Mul(j, gap) >= span <==> j >= PerWindow(span, gap))
  {
    var c := PerWindow(span, gap);
    assert gap * c <= span + gap - 1 < gap * c + gap;
    MulIs(j, gap);
    MulIs(c, gap);
    MulIs(c - 1, gap);
    MulStep(c - 1, gap);
    if j >= c { MulMono(c, j, gap); } else { MulMono(j, c - 1, gap); }
  }

  /** j observations into a window, after k of them, q windows having been closed. */
  predicate OnBeat(v: Window, t: int, gap: nat, n: nat, k: nat, q: nat, j: nat, c: nat) {
    v.last + Mul(j, gap) == t + Mul(k, gap) && v.bytes == Mul(j, n) && j < c && k == Mul(q, c) + j
  }

  /** A window that closes after j + 1 observations samples the stream's own rate. */
  lemma SteadySample(v: Window, t: int, gap: nat, n: nat, k: nat, q: nat, j: nat, c: nat)
    requires gap > 0 && OnBeat(v, t, gap, n, k, q, j, c)
    ensures var now := t + Mul(k + 1, gap);
      now - v.last == Mul(j + 1, gap) > 0 && v.bytes + n == Mul(j + 1, n) && v.Sample(now, n) == RateOf(n, gap)
  {
    MulStep(k, gap);
    MulStep(j, gap);
    MulStep(j, n);
    MulMono(0, j, gap);
    DivCancel(j + 1, 8 * n * 1_000_000, gap);
    assert 8 * Mul(j + 1, n) * 1_000_000 == (j + 1) * (8 * n * 1_000_000);
  }

  lemma {:induction false} SteadyBeats(w: Window, gap: nat, n: nat, k: nat, span: int) returns (j: nat)
    requires span > 0 && gap > 0 && w.bytes == 0
    ensures var (fs, c) := (Steady(w.last, gap, n, k), PerWindow(span, gap));
      && OnBeat(FeedAll(w, fs, span), w.last, gap, n, k, ClosingFeeds(w, fs, span), j, c)
      && SamplesAbove(w, fs, span, RateOf(n, gap)) && SamplesBelow(w, fs, span, RateOf(n, gap))
    decreases k
  {
    hide Mul, RateOf, PerWindow;
    var c := PerWindow(span, gap);
    PerWindowIs(span, gap, 0);
    MulStep(0, gap);
    MulStep(0, n);
    MulStep(0, c);
    if k == 0 {
      j := 0;
    } else {
      var i := SteadyBeats(w, gap, n, k - 1, span);
      var fs := Steady(w.last, gap, n, k);
      assert Most(fs) == Steady(w.last, gap, n, k - 1) && Last(fs) == (w.last + Mul(k, gap), n);
      var (v, q) := (FeedAll(w, Most(fs), span), ClosingFeeds(w, Most(fs), span));
      SteadySample(v, w.last, gap, n, k - 1, q, i, c);
      PerWindowIs(span, gap, i + 1);
      MulStep(q, c);
      j := if i + 1 >= c then 0 else i + 1;
    }
  }

  /** From rest, after enough of it, a steady stream is measured at exactly its own bit
      rate. */
  lemma SteadyRate(w: Window, gap: nat, n: nat, k: nat, span: int)
    requires span > 0 && gap > 0 && w.bytes == 0 && w.eightTimes == 0
    requires k >= Mul(RiseTime(RateOf(n, gap)), PerWindow(span, gap))
    ensures FeedAll(w, Steady(w.last, gap, n, k), span).Bps() == RateOf(n, gap)
  {
    hide Mul, RateOf, PerWindow, RiseTime, FeedAll, Steady, SamplesAbove, SamplesBelow, ClosingFeeds;
    var (fs, c, low) := (Steady(w.last, gap, n, k), PerWindow(span, gap), RateOf(n, gap));
    var j := SteadyBeats(w, gap, n, k, span);
    var q := ClosingFeeds(w, fs, span);
    if q < RiseTime(low) {
      MulMono(q + 1, RiseTime(low), c);
      MulStep(q, c);
    }
    RateReachesSamples(w, fs, span, low);
    RateWithinSamples(w, fs, span, low);
  }

  // ---- idle refreshes ----

  /** Zero-length refreshes at the given instants. */
  function IdleAll(w: Window, ts: seq<int>, span: int): Window
    requires span > 0
    decreases |ts|
  {
    if ts == [] then w else IdleAll(w.Feed(ts[0], 0, span), ts[1..], span)
  }

  /** The refreshes that find the window expired, and so close it. */
  function Closings(w: Window, ts: seq<int>, span: int): nat
    requires span > 0
    decreases |ts|
  {
    if ts == [] then 0
    else (if w.Expires(ts[0], span) then 1 else 0) + Closings(w.Feed(ts[0], 0, span), ts[1..], span)
  }

  /** Whenever the refreshes come, an empty window decays once for each closing. */
  lemma {:induction false} IdleDecays(w: Window, ts: seq<int>, span: int)
    requires span > 0 && w.bytes == 0
    ensures IdleAll(w, ts, span).eightTimes == DecayN(w.eightTimes, Closings(w, ts, span))
    decreases |ts|
  {
    if ts != [] { IdleDecays(w.Feed(ts[0], 0, span), ts[1..], span); }
  }

  lemma RateShrinks(bytes: nat, span: int, elapsed: int)
    requires 0 < span <= elapsed
    ensures RateOf(bytes, elapsed) <= RateOf(bytes, span)
  {
    DivMono(8 * bytes * 1_000_000, span, elapsed);
  }

  /** Closings that certainly bring w to zero, the first one ending the window that
      is still collecting bytes. */
  function ReopenTime(w: Window, span: int): nat
    requires span > 0
  {
    1 + DrainTime(w.eightTimes + RateOf(w.bytes, span))
  }

  /** Enough closings bring a rate to exactly zero, however high it was and however
      often it is refreshed in between. */
  lemma {:induction false} IdleReachesZero(w: Window, ts: seq<int>, span: int)
    requires span > 0 && Closings(w, ts, span) >= ReopenTime(w, span)
    ensures IdleAll(w, ts, span).Bps() == 0
    decreases |ts|
  {
    hide RateOf, DrainTime, DecayN;
    var v := w.Feed(ts[0], 0, span);
    if w.Expires(ts[0], span) {
      var top, k := w.eightTimes + RateOf(w.bytes, span), Closings(v, ts[1..], span);
      RateShrinks(w.bytes, span, ts[0] - w.last);
      IdleDecays(v, ts[1..], span);
      DecayMonotone(v.eightTimes, top, k);
      Drains(top, k);
    } else {
      IdleReachesZero(v, ts[1..], span);
    }
  }

  // ---- how long that takes ----

  /** The instants never go back and are at most `gap` apart, from prev on. */
  predicate Dense(prev: int, ts: seq<int>, gap: int)
    decreases |ts|
  {
    ts == [] || (0 <= ts[0] - prev <= gap && Dense(ts[0], ts[1..], gap))
  }

  function End(prev: int, ts: seq<int>): int {
    if ts == [] then prev else ts[|ts| - 1]
  }

  /** The window has been refreshed at prev. */
  predicate Current(w: Window, prev: int, span: int) { w.last <= prev < w.last + span }

  /** Refreshes at most `gap` apart close the window at least once every span + gap. */
  lemma {:induction false} ClosingsInTime(w: Window, prev: int, ts: seq<int>, span: int, gap: int)
    requires span > 0 && Current(w, prev, span) && Dense(prev, ts, gap)
    ensures End(prev, ts) < w.last + span + Mul(Closings(w, ts, span), span + gap)
    decreases |ts|
  {
    hide Mul;
    if ts == [] {
      MulStep(0, span + gap);
    } else {
      var v := w.Feed(ts[0], 0, span);
      ClosingsInTime(v, ts[0], ts[1..], span, gap);
      MulStep(Closings(v, ts[1..], span), span + gap);
    }
  }

  // ---- the gate ----

  function Refresh(e: Ewma, ts: seq<int>): Ewma
    decreases |ts|
  {
    if ts == [] then e else Refresh(e.Feed(ts[0], 0), ts[1..])
  }

  lemma {:induction false} RefreshIsIdle(e: Ewma, ts: seq<int>)
    requires e.seeded
    ensures Refresh(e, ts).slow == IdleAll(e.slow, ts, SLOW_WINDOW)
    ensures Refresh(e, ts).fast == IdleAll(e.fast, ts, FAST_WINDOW)
    decreases |ts|
  {
    if ts != [] { RefreshIsIdle(e.Feed(ts[0], 0), ts[1..]); }
  }

  lemma AwakeRefreshes(e: Ewma, ts: seq<int>)
    requires ts != []
    ensures Refresh(e.Awake(ts[0]), ts) == Refresh(e, ts)
  {
  }

  /** The refreshes close each window the gate reads often enough to drain it. */
  predicate DrainsGate(mode: CongestionMode, data: Ewma, retry: Ewma, ts: seq<int>) {
    && (!mode.CongestionOff? ==> Closings(retry.fast, ts, FAST_WINDOW) >= ReopenTime(retry.fast, FAST_WINDOW))
    && (mode.CongestionNormal? ==> Closings(data.slow, ts, SLOW_WINDOW) >= ReopenTime(data.slow, SLOW_WINDOW))
    && (mode.CongestionAggressive? ==> Closings(data.fast, ts, FAST_WINDOW) >= ReopenTime(data.fast, FAST_WINDOW))
  }

  /** However high the rates, refreshes at any instants that close the windows often
      enough, with nothing sent, leave the gate open for every ceiling. */
  lemma GateReopens(mode: CongestionMode, data: Ewma, retry: Ewma, ts: seq<int>, maxKbps: nat)
    requires ts != [] && DrainsGate(mode, data.Awake(ts[0]), retry.Awake(ts[0]), ts)
    ensures !OverBudget(mode, Refresh(data, ts), Refresh(retry, ts), maxKbps)
  {
    hide ReopenTime, Closings, IdleAll, Refresh;
    var d, r := data.Awake(ts[0]), retry.Awake(ts[0]);
    AwakeRefreshes(data, ts);
    AwakeRefreshes(retry, ts);
    RefreshIsIdle(d, ts);
    RefreshIsIdle(r, ts);
    match mode
    case CongestionOff =>
    case CongestionNormal =>
      IdleReachesZero(d.slow, ts, SLOW_WINDOW);
      IdleReachesZero(r.fast, ts, FAST_WINDOW);
    case CongestionAggressive =>
      IdleReachesZero(d.fast, ts, FAST_WINDOW);
      IdleReachesZero(r.fast, ts, FAST_WINDOW);
  }

  /** A tracker after a sequence of observations. */
  function Observed(e: Ewma, fs: Feeds): Ewma {
    if fs == [] then e else Observed(e, Most(fs)).Feed(Last(fs).0, Last(fs).1)
  }

  /** It is its two windows, opened by the first observation. */
  lemma {:induction false} ObservedWindows(e: Ewma, fs: Feeds)
    requires fs != []
    ensures var (r, a) := (Observed(e, fs), e.Awake(fs[0].0));
      r.seeded && r.slow == FeedAll(a.slow, fs, SLOW_WINDOW) && r.fast == FeedAll(a.fast, fs, FAST_WINDOW)
    decreases |fs|
  {
    hide Window.Feed;
    if |fs| > 1 {
      ObservedWindows(e, Most(fs));
    } else {
      assert Most(fs) == [];
    }
  }

  /** The window of the first transmissions that the gate reads. */
  function DataWindow(mode: CongestionMode, e: Ewma): (Window, int) {
    if mode.CongestionAggressive? then (e.fast, FAST_WINDOW) else (e.slow, SLOW_WINDOW)
  }

  /** Enough windows that each sample more than the ceiling shut the gate, whatever is
      re-sent. */
  lemma GateShuts(mode: CongestionMode, data: Ewma, fs: Feeds, retry: Ewma, maxKbps: nat)
    requires !mode.CongestionOff? && fs != []
    requires var (w, span) := DataWindow(mode, data.Awake(fs[0].0));
      var low := maxKbps * 1000 + 1;
      SamplesAbove(w, fs, span, low) && ClosingFeeds(w, fs, span) >= RiseTime(low)
    ensures OverBudget(mode, Observed(data, fs), retry, maxKbps)
  {
    hide SamplesAbove, ClosingFeeds, RiseTime, FeedAll, Observed;
    var (w, span) := DataWindow(mode, data.Awake(fs[0].0));
    RateReachesSamples(w, fs, span, maxKbps * 1000 + 1);
    ObservedWindows(data, fs);
  }

  /** Both windows are open at `now`: further bytes then change no rate. */
  predicate Refreshed(e: Ewma, now: int) {
    e.seeded && !e.slow.Expires(now, SLOW_WINDOW) && !e.fast.Expires(now, FAST_WINDOW)
  }

  lemma RefreshedOnce(e: Ewma, now: int, n: nat)
    ensures Refreshed(e.Feed(now, n), now)
    ensures Refreshed(e, now) ==>
      e.Feed(now, n).slow.eightTimes == e.slow.eightTimes && e.Feed(now, n).fast.eightTimes == e.fast.eightTimes
  {
    hide RateOf;
  }

  // ---- the tracker as the sender holds it ----

  class BitrateEwma {
    var bytesSlow: nat
    var bytesFast: nat
    var lastSlow: int
    var lastFast: int
    var eightTimesSlow: nat
    var eightTimesFast: nat
    var seeded: bool

    function Abs(): Ewma
      reads this
    {
      Ewma(Window(bytesSlow, lastSlow, eightTimesSlow), Window(bytesFast, lastFast, eightTimesFast), seeded)
    }

    constructor ()
      ensures Abs() == FRESH
    {
      bytesSlow, bytesFast, lastSlow, lastFast := 0, 0, 0, 0;
      eightTimesSlow, eightTimesFast, seeded := 0, 0, false;
    }

    method Feed(now: int, n: nat)
      modifies this
      ensures Abs() == old(Abs()).Feed(now, n)
    {
      hide RateOf;
      if !seeded {
        lastSlow, lastFast, seeded := now, now, true;
      }
      bytesSlow := bytesSlow + n;
      bytesFast := bytesFast + n;
      var elapsed := now - lastSlow;
      if elapsed >= SLOW_WINDOW {
        var sample := RateOf(bytesSlow, elapsed);
        eightTimesSlow := eightTimesSlow + sample - eightTimesSlow / 8;
        lastSlow := now;
        bytesSlow := 0;
      }
      elapsed := now - lastFast;
      if elapsed >= FAST_WINDOW {
        var sample := RateOf(bytesFast, elapsed);
        eightTimesFast := eightTimesFast + sample - eightTimesFast / 8;
        lastFast := now;
        bytesFast := 0;
      }
    }
  }
}
