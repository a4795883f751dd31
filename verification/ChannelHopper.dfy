/**
 The channel hopper: weighted picks, a lock on the channel where a drone was heard with every Nth
 dwell handed back to the sweep, and the plan that widens while a peer is busy. Random draws and
 clock readings are inputs; weights and times are exact reals.
 */
module ChannelHopper {
  import opened Options

  datatype Spec = Spec(channel: int, weight: real)

  /** A channel with the upper end of its share of [0, 1]. */
  datatype Share = Share(upTo: real, spec: Spec)

  // ---- Weights ----

  function Total(plan: seq<Spec>): real {
    if plan == [] then 0.0 else Total(plan[..|plan| - 1]) + plan[|plan| - 1].weight
  }

  /** A plan the hopper accepts. */
  predicate Fits(plan: seq<Spec>) {
    plan != [] && Total(plan) > 0.0
  }

  function Shares(plan: seq<Spec>): (s: seq<Share>)
    requires Fits(plan)
    ensures |s| == |plan|
  {
    seq(|plan|, i requires 0 <= i < |plan| => Share(Total(plan[..i + 1]) / Total(plan), plan[i]))
  }

  lemma TotalStep(plan: seq<Spec>, i: nat)
    requires i < |plan|
    ensures Total(plan[..i + 1]) == Total(plan[..i]) + plan[i].weight
  {
    assert plan[..i + 1][..i] == plan[..i];
  }

  /** The first share whose upper end the draw does not pass. */
  function FirstReaching(shares: seq<Share>, r: real): (i: nat)
    ensures i <= |shares| && (i < |shares| ==> r <= shares[i].upTo)
    ensures forall j :: 0 <= j < i ==> shares[j].upTo < r
  {
    if shares == [] then 0
    else if r <= shares[0].upTo then 0
    else
      var i := FirstReaching(shares[1..], r);
      assert forall j :: 1 <= j < i + 1 ==> shares[j] == shares[1..][j - 1];
      i + 1
  }

  predicate Weighted(plan: seq<Spec>) {
    Fits(plan) && forall i :: 0 <= i < |plan| ==> plan[i].weight >= 0.0
  }

  lemma {:induction false} TotalMonotone(plan: seq<Spec>, i: nat, j: nat)
    requires i <= j <= |plan| && forall k :: 0 <= k < |plan| ==> plan[k].weight >= 0.0
    ensures Total(plan[..i]) <= Total(plan[..j])
  {
    if i < j {
      TotalMonotone(plan, i, j - 1);
      TotalStep(plan, j - 1);
    }
  }

  lemma Ordered(a: real, b: real, t: real)
    requires t > 0.0
    ensures a <= b <==> a / t <= b / t
  {
    assert a == (a / t) * t && b == (b / t) * t;
  }

  lemma Apart(a: real, w: real, t: real)
    requires t > 0.0
    ensures (a + w) / t - a / t == w / t
  {}

  /** Main: a draw picks the channel in whose interval it lies, and the interval is as long as the channel's weight share.
      The first interval is closed below, so a draw of 0 picks the first channel even at weight 0. */
  lemma PickExact(plan: seq<Spec>, r: real, i: nat)
    requires Weighted(plan) && 0.0 <= r <= 1.0 && i < |plan|
    ensures FirstReaching(Shares(plan), r) < |plan|
    ensures FirstReaching(Shares(plan), r) == i <==>
            (i == 0 || Total(plan[..i]) / Total(plan) < r) && r <= Total(plan[..i + 1]) / Total(plan)
    ensures Total(plan[..i + 1]) / Total(plan) - Total(plan[..i]) / Total(plan) == plan[i].weight / Total(plan)
  {
    hide Total, FirstReaching;
    var t, s := Total(plan), Shares(plan);
    var k := FirstReaching(s, r);
    assert plan[..|plan|] == plan;
    assert s[|plan| - 1].upTo == 1.0;
    TotalStep(plan, i);
    Apart(Total(plan[..i]), plan[i].weight, t);
    if k < i {
      TotalMonotone(plan, k + 1, i);
      Ordered(Total(plan[..k + 1]), Total(plan[..i]), t);
      assert s[k].upTo <= Total(plan[..i]) / t;
    } else if i < k {
      assert s[i].upTo < r;
    } else if i > 0 {
      assert s[i - 1].upTo < r;
    }
  }

  // ---- The hopper ----

  datatype Hop = Hop(
    channels: seq<Spec>, cumulative: seq<Share>, scanEvery: int, hold: real,
    locked: Option<int>, expires: real, since: int, scanning: bool, current: Spec,
    scanDwells: nat, escalations: nat)

  function Started(channels: seq<Spec>, scanEvery: int, hold: real): Hop
    requires Fits(channels)
  {
    Hop(channels, Shares(channels), scanEvery, hold, None, 0.0, 0, false, channels[0], 0, 0)
  }

  predicate Escalated(h: Hop, now: real) {
    h.locked.Some? && now < h.expires
  }

  /** The next dwell is the one handed back to the sweep. */
  predicate SlotDue(h: Hop) {
    h.scanEvery >= 2 && h.since + 1 >= h.scanEvery
  }

  function Pool(channels: seq<Spec>, exclude: int): seq<Spec> {
    if channels == [] then []
    else
      var front, last := Pool(channels[..|channels| - 1], exclude), channels[|channels| - 1];
      if last.channel != exclude then front + [last] else front
  }

  /** Running totals of a pool, not scaled to 1. */
  function Tops(pool: seq<Spec>): (s: seq<Share>)
    ensures |s| == |pool|
  {
    seq(|pool|, i requires 0 <= i < |pool| => Share(Total(pool[..i + 1]), pool[i]))
  }

  function PickFrom(shares: seq<Share>, r: real, otherwise: Spec): Spec {
    var i := FirstReaching(shares, r);
    if i < |shares| then shares[i].spec else otherwise
  }

  /** A draw from [0, 1] as one from [0, total]. */
  function ScaledTo(draw: real, total: real): real {
    draw * total
  }

  function SweepPick(channels: seq<Spec>, exclude: int, draw: real): Spec
    requires channels != []
  {
    var pool := Pool(channels, exclude);
    if pool == [] then channels[0]
    else if Total(pool) <= 0.0 then pool[0]
    else PickFrom(Tops(pool), ScaledTo(draw, Total(pool)), pool[|pool| - 1])
  }

  function FindChannel(channels: seq<Spec>, channel: int): Option<Spec> {
    if channels == [] then None
    else if channels[0].channel == channel then Some(channels[0])
    else FindChannel(channels[1..], channel)
  }

  function Claimed(h: Hop): Hop {
    if h.scanEvery < 2 then h else h.(since := if SlotDue(h) then 0 else h.since + 1)
  }

  /** next_channel. */
  function Dwell(h: Hop, now: real, draw: real): Hop
    requires h.channels != []
  {
    if !Escalated(h, now) then Hopped(h, draw)
    else if SlotDue(h) then
      Claimed(h).(scanDwells := h.scanDwells + 1, scanning := true, current := SweepPick(h.channels, h.locked.value, draw))
    else
      match FindChannel(h.channels, h.locked.value)
      case Some(spec) => Claimed(h).(scanning := false, current := spec)
      case None => Hopped(Claimed(h).(locked := None), draw)
  }

  function Hopped(h: Hop, draw: real): Hop
    requires h.channels != []
  {
    h.(scanning := false, current := PickFrom(h.cumulative, draw, h.channels[|h.channels| - 1]))
  }

  /** on_drone_detected; the clock is read twice. */
  function Hit(h: Hop, channel: int, asked: real, now: real): Hop {
    var g := h.(locked := Some(channel), expires := now + h.hold);
    if Escalated(h, asked) then g else g.(escalations := h.escalations + 1, since := 0)
  }

  /** set_channels: no plan at all is refused; weights that do not sum to more than 0 are refused after the channels are
      replaced. */
  function WithChannels(h: Hop, plan: seq<Spec>): Hop {
    if plan == [] then h
    else if !Fits(plan) then h.(channels := plan)
    else h.(channels := plan, cumulative := Shares(plan))
  }

  // ---- The plan ----

  datatype Plan = Plan(split: seq<Spec>, solo: Option<seq<Spec>>, fallback: bool, minHold: real,
                       widened: bool, swaps: nat, changedAt: Option<real>)

  function Target(p: Plan, wide: bool): seq<Spec>
    requires p.solo.Some?
  {
    if wide then p.solo.value else p.split
  }

  predicate Swaps(p: Plan, want: bool, now: real) {
    && p.solo.Some? && !p.fallback
    && want != p.widened
    && !(p.changedAt.Some? && now - p.changedAt.value < p.minHold)
  }

  datatype World = World(hop: Hop, plan: Plan)

  /** reconcile. A plan the hopper refuses leaves the plan state as it was. */
  function Reconciled(w: World, peerActive: bool, asked: real, now: real): World {
    var want := peerActive && !Escalated(w.hop, asked);
    if !Swaps(w.plan, want, now) then w
    else
      var target := Target(w.plan, want);
      var hop := WithChannels(w.hop, target);
      if !Fits(target) then World(hop, w.plan)
      else World(hop, w.plan.(widened := want, swaps := w.plan.swaps + 1, changedAt := Some(now)))
  }

  // ---- Runs ----

  datatype Step =
    | Pick(now: real, draw: real)
    | Heard(channel: int, asked: real, now: real)
    | Coordinate(peerActive: bool, asked: real, now: real)

  function Next(w: World, step: Step): (v: World)
    requires w.hop.channels != []
    ensures v.hop.channels != []
  {
    match step
    case Pick(now, draw) => w.(hop := Dwell(w.hop, now, draw))
    case Heard(channel, asked, now) => w.(hop := Hit(w.hop, channel, asked, now))
    case Coordinate(peerActive, asked, now) => Reconciled(w, peerActive, asked, now)
  }

  function Run(w: World, steps: seq<Step>): (v: World)
    requires w.hop.channels != []
    ensures v.hop.channels != []
  {
    if steps == [] then w else Next(Run(w, steps[..|steps| - 1]), steps[|steps| - 1])
  }

  function Picks(steps: seq<Step>): nat {
    if steps == [] then 0
    else Picks(steps[..|steps| - 1]) + if steps[|steps| - 1].Pick? then 1 else 0
  }

  /** The lock holds at every pick of the run, and no detection on the way finds it lapsed. */
  ghost predicate HeldThroughout(w: World, steps: seq<Step>)
    requires w.hop.channels != []
  {
    forall k :: 0 <= k < |steps| ==> HeldAt(Run(w, steps[..k]).hop, steps[k])
  }

  predicate HeldAt(h: Hop, step: Step) {
    match step
    case Pick(now, _) => Escalated(h, now)
    case Heard(_, asked, _) => Escalated(h, asked)
    case Coordinate(_, _, _) => true
  }

  predicate Counting(h: Hop) {
    h.channels != [] && h.scanEvery >= 2 && 0 <= h.since < h.scanEvery
  }

  lemma {:induction false} CountingRuns(w: World, steps: seq<Step>)
    requires Counting(w.hop)
    ensures Counting(Run(w, steps).hop) && Run(w, steps).hop.scanEvery == w.hop.scanEvery
  {
    hide SweepPick, PickFrom, FindChannel, Shares;
    if steps != [] {
      CountingRuns(w, steps[..|steps| - 1]);
    }
  }

  /** Main: while the lock is held, the scan slots among any number of picks are counted out exactly: one for every
      `scanEvery`, going on from where the count stood; swaps and renewals in between change nothing. */
  lemma {:induction false} ScansCounted(w: World, steps: seq<Step>)
    requires Counting(w.hop) && HeldThroughout(w, steps)
    ensures var v := Run(w, steps).hop;
      (v.scanDwells - w.hop.scanDwells) * w.hop.scanEvery + v.since == w.hop.since + Picks(steps)
  {
    hide SweepPick, PickFrom, FindChannel, Shares, HeldThroughout;
    if steps != [] {
      var front, last := steps[..|steps| - 1], steps[|steps| - 1];
      HeldEarlier(w, steps);
      ScansCounted(w, front);
      CountingRuns(w, front);
      var u, v := Run(w, front).hop, Run(w, steps).hop;
      OneMore(u.scanDwells - w.hop.scanDwells, w.hop.scanEvery);
    }
  }

  lemma OneMore(a: int, n: int)
    ensures (a + 1) * n == a * n + n
  {}

  lemma HeldEarlier(w: World, steps: seq<Step>)
    requires w.hop.channels != [] && steps != [] && HeldThroughout(w, steps)
    ensures var front := steps[..|steps| - 1];
      HeldThroughout(w, front) && HeldAt(Run(w, front).hop, steps[|steps| - 1])
  {
    hide Run, HeldAt;
    var front := steps[..|steps| - 1];
    forall k | 0 <= k < |front| ensures HeldAt(Run(w, front[..k]).hop, front[k]) {
      assert front[..k] == steps[..k];
    }
  }

  /** Main: every window of `scanEvery` picks under the lock has exactly one scan slot; fewer picks right after an
      escalation have none. */
  lemma OneScanAWindow(w: World, steps: seq<Step>)
    requires Counting(w.hop) && HeldThroughout(w, steps)
    ensures Picks(steps) == w.hop.scanEvery ==> Run(w, steps).hop.scanDwells == w.hop.scanDwells + 1
    ensures w.hop.since == 0 && Picks(steps) < w.hop.scanEvery ==> Run(w, steps).hop.scanDwells == w.hop.scanDwells
  {
    hide Run, Picks, HeldThroughout;
    ScansCounted(w, steps);
    CountingRuns(w, steps);
    var v := Run(w, steps).hop;
    if Picks(steps) <= w.hop.scanEvery {
      Turns(v.scanDwells - w.hop.scanDwells, w.hop.scanEvery, v.since, w.hop.since + Picks(steps));
    }
  }

  /** How often a count that wraps at `n` has wrapped, below two turns. */
  lemma Turns(q: int, n: int, r: int, total: int)
    requires 0 <= r < n && 0 <= total < 2 * n && q * n + r == total
    ensures q == if total < n then 0 else 1
  {
    if q >= 2 {
      AtLeast(q, 2, n);
    } else if q <= -1 {
      AtLeast(-1, q, n);
    }
  }

  lemma AtLeast(a: int, b: int, n: int)
    requires a >= b && n >= 0
    ensures a * n >= b * n
  {}

  // ---- Where a dwell lands ----

  lemma {:induction false} PoolExact(channels: seq<Spec>, exclude: int)
    ensures forall s :: s in Pool(channels, exclude) <==> s in channels && s.channel != exclude
  {
    if channels != [] {
      var front, last := channels[..|channels| - 1], channels[|channels| - 1];
      PoolExact(front, exclude);
      assert channels == front + [last];
    }
  }

  lemma {:induction false} FindExact(channels: seq<Spec>, channel: int)
    ensures var f := FindChannel(channels, channel);
      (f.Some? ==> f.value in channels && f.value.channel == channel)
      && (f.None? ==> forall s :: s in channels ==> s.channel != channel)
  {
    if channels != [] && channels[0].channel != channel {
      FindExact(channels[1..], channel);
      assert channels == [channels[0]] + channels[1..];
    }
  }

  predicate InPlan(channels: seq<Spec>, at: int) {
    exists s :: s in channels && s.channel == at
  }

  /** Main: a locked dwell is on the locked channel, unless it is the scan slot; a scan slot is on another channel of the
      plan whenever there is one; a lock on a channel the plan lacks is dropped. */
  lemma DwellLands(h: Hop, now: real, draw: real)
    requires h.channels != [] && Escalated(h, now)
    ensures var g, at := Dwell(h, now, draw), h.locked.value;
      && (g.scanning <==> SlotDue(h))
      && (g.scanning ==> g.current in h.channels)
      && (g.scanning && (exists s :: s in h.channels && s.channel != at) ==> g.current.channel != at)
      && (!g.scanning && (exists s :: s in h.channels && s.channel == at) ==>
            g.current in h.channels && g.current.channel == at && g.locked == h.locked)
      && (!g.scanning && (forall s :: s in h.channels ==> s.channel != at) ==> g.locked.None?)
  {
    hide Pool, FindChannel, Total, FirstReaching, Shares;
    var at := h.locked.value;
    PoolExact(h.channels, at);
    FindExact(h.channels, at);
    var pool := Pool(h.channels, at);
    if pool != [] {
      assert pool[0] in pool && pool[|pool| - 1] in pool;
      SweepFromPool(pool, ScaledTo(draw, Total(pool)));
    }
  }

  lemma SweepFromPool(pool: seq<Spec>, r: real)
    requires pool != []
    ensures PickFrom(Tops(pool), r, pool[|pool| - 1]) in pool
  {
    hide Total, FirstReaching;
    var i := FirstReaching(Tops(pool), r);
    assert i < |pool| ==> Tops(pool)[i].spec == pool[i];
  }

  /** A scan slot draws from the pool in the same way, over the pool's own total. */
  lemma SweepExact(pool: seq<Spec>, r: real, i: nat)
    requires Weighted(pool) && 0.0 <= r <= Total(pool) && i < |pool|
    ensures FirstReaching(Tops(pool), r) < |pool|
    ensures FirstReaching(Tops(pool), r) == i <==> (i == 0 || Total(pool[..i]) < r) && r <= Total(pool[..i + 1])
  {
    hide Total, FirstReaching;
    var s := Tops(pool);
    var k := FirstReaching(s, r);
    assert pool[..|pool|] == pool;
    assert s[|pool| - 1].upTo == Total(pool);
    if k < i {
      TotalMonotone(pool, k + 1, i);
      assert s[k].upTo <= Total(pool[..i]);
    } else if i < k {
      assert s[i].upTo < r;
    } else if i > 0 {
      assert s[i - 1].upTo < r;
    }
  }

  /** The draw lies in the i-th interval of the plan's running totals, scaled to 1. */
  predicate Drawn(plan: seq<Spec>, draw: real, i: int)
    requires Total(plan) > 0.0
  {
    && 0 <= i < |plan|
    && (i == 0 || Total(plan[..i]) / Total(plan) < draw)
    && draw <= Total(plan[..i + 1]) / Total(plan)
  }

  lemma HoppedExact(h: Hop, draw: real)
    requires Weighted(h.channels) && h.cumulative == Shares(h.channels) && 0.0 <= draw <= 1.0
    ensures exists i :: Drawn(h.channels, draw, i)
    ensures forall i :: Drawn(h.channels, draw, i) ==> Hopped(h, draw) == h.(scanning := false, current := h.channels[i])
  {
    hide Total, FirstReaching;
    var k := FirstReaching(h.cumulative, draw);
    PickExact(h.channels, draw, 0);
    PickExact(h.channels, draw, k);
    assert Drawn(h.channels, draw, k);
    forall i | Drawn(h.channels, draw, i) ensures i == k {
      PickExact(h.channels, draw, i);
    }
  }

  /** Main: without a lock that still runs, a dwell is on the channel in whose interval the draw lies, and there is one. */
  lemma FreeDwell(h: Hop, now: real, draw: real)
    requires Weighted(h.channels) && h.cumulative == Shares(h.channels) && 0.0 <= draw <= 1.0
    requires h.locked.None? || h.expires <= now
    ensures exists i :: Drawn(h.channels, draw, i)
    ensures forall i :: Drawn(h.channels, draw, i) ==>
              Dwell(h, now, draw) == h.(scanning := false, current := h.channels[i])
  {
    hide Total, Shares, Hopped;
    HoppedExact(h, draw);
  }

  /** Main: under a lock on a channel the plan lacks, every dwell that is no scan slot drops the lock and is drawn likewise. */
  lemma DroppedDwell(h: Hop, now: real, draw: real)
    requires Weighted(h.channels) && h.cumulative == Shares(h.channels) && 0.0 <= draw <= 1.0
    requires h.locked.Some? && now < h.expires && !(h.scanEvery >= 2 && h.since + 1 >= h.scanEvery)
    requires forall s :: s in h.channels ==> s.channel != h.locked.value
    ensures exists i :: Drawn(h.channels, draw, i)
    ensures forall i :: Drawn(h.channels, draw, i) ==>
              Dwell(h, now, draw) == h.(locked := None, since := if h.scanEvery < 2 then h.since else h.since + 1,
                                        scanning := false, current := h.channels[i])
  {
    hide Total, Shares, Hopped, FindChannel;
    FindExact(h.channels, h.locked.value);
    HoppedExact(Claimed(h).(locked := None), draw);
  }

  /** Main: under a lock on a channel of the plan, every dwell that is no scan slot is on the plan's first entry for it. */
  lemma {:induction false} LockedDwell(h: Hop, now: real, draw: real, i: nat)
    requires h.locked.Some? && now < h.expires && !(h.scanEvery >= 2 && h.since + 1 >= h.scanEvery)
    requires i < |h.channels| && h.channels[i].channel == h.locked.value
    requires forall j :: 0 <= j < i ==> h.channels[j].channel != h.locked.value
    ensures Dwell(h, now, draw) == h.(since := if h.scanEvery < 2 then h.since else h.since + 1,
                                      scanning := false, current := h.channels[i])
  {
    hide Hopped, FindChannel;
    FindFirst(h.channels, h.locked.value, i);
  }

  lemma {:induction false} FindFirst(channels: seq<Spec>, channel: int, i: nat)
    requires i < |channels| && channels[i].channel == channel
    requires forall j :: 0 <= j < i ==> channels[j].channel != channel
    ensures FindChannel(channels, channel) == Some(channels[i])
  {
    if i > 0 {
      FindFirst(channels[1..], channel, i - 1);
    }
  }

  /** The weight of a plan, one channel left out. */
  function TotalBut(plan: seq<Spec>, at: int): real {
    if plan == [] then 0.0
    else
      var last := plan[|plan| - 1];
      TotalBut(plan[..|plan| - 1], at) + if last.channel == at then 0.0 else last.weight
  }

  /** The draw lies in the i-th interval of the running totals of the plan without the channel, scaled to 1. */
  predicate DrawnBut(plan: seq<Spec>, at: int, draw: real, i: int)
    requires TotalBut(plan, at) > 0.0
  {
    && 0 <= i < |plan| && plan[i].channel != at
    && ((forall j :: 0 <= j < i ==> plan[j].channel == at) || TotalBut(plan[..i], at) / TotalBut(plan, at) < draw)
    && draw <= TotalBut(plan[..i + 1], at) / TotalBut(plan, at)
  }

  /** The entries of the pool that come from the plan's first i. */
  lemma {:induction false} PoolOfFirst(plan: seq<Spec>, at: int, i: nat)
    requires i <= |plan|
    ensures Pool(plan[..i], at) <= Pool(plan, at)
    ensures i < |plan| && plan[i].channel != at ==>
              Pool(plan[..i + 1], at) == Pool(plan[..i], at) + [plan[i]] && Pool(plan[..i + 1], at) <= Pool(plan, at)
    ensures Pool(plan[..i], at) == [] <==> forall j :: 0 <= j < i ==> plan[j].channel == at
    decreases |plan| - i
  {
    PoolExact(plan[..i], at);
    assert forall j :: 0 <= j < i ==> plan[..i][j] == plan[j];
    assert Pool(plan[..i], at) == [] <==> forall s :: s in Pool(plan[..i], at) ==> false by {
      if Pool(plan[..i], at) != [] {
        assert Pool(plan[..i], at)[0] in Pool(plan[..i], at);
      }
    }
    if i < |plan| {
      PoolOfFirst(plan, at, i + 1);
      assert plan[..i + 1][..i] == plan[..i];
    } else {
      assert plan[..i] == plan;
    }
  }

  lemma {:induction false} PoolTotal(plan: seq<Spec>, at: int)
    ensures Total(Pool(plan, at)) == TotalBut(plan, at)
  {
    if plan != [] {
      var front, last := plan[..|plan| - 1], plan[|plan| - 1];
      PoolTotal(front, at);
      if last.channel != at {
        assert Pool(plan, at)[..|Pool(plan, at)| - 1] == Pool(front, at);
      }
    }
  }

  /** Where in the plan an entry of the pool comes from. */
  lemma {:induction false} PoolSource(plan: seq<Spec>, at: int, k: nat) returns (i: nat)
    requires k < |Pool(plan, at)|
    ensures i < |plan| && plan[i].channel != at && |Pool(plan[..i], at)| == k
  {
    var front := plan[..|plan| - 1];
    if k < |Pool(front, at)| {
      i := PoolSource(front, at, k);
      assert front[..i] == plan[..i];
    } else {
      i := |front|;
    }
  }

  lemma {:induction false} PoolWeighted(plan: seq<Spec>, at: int)
    requires forall s :: s in plan ==> s.weight >= 0.0
    ensures forall s :: s in Pool(plan, at) ==> s.weight >= 0.0
  {
    PoolExact(plan, at);
  }

  /** The place in the pool of an entry of the plan, and the pool's running totals there. */
  lemma PoolAt(plan: seq<Spec>, at: int, i: nat)
    requires i < |plan| && plan[i].channel != at
    ensures var pool, m := Pool(plan, at), |Pool(plan[..i], at)|;
      && m < |pool| && pool[m] == plan[i] && (m == 0 <==> forall j :: 0 <= j < i ==> plan[j].channel == at)
      && Total(pool) == TotalBut(plan, at)
      && Total(pool[..m]) == TotalBut(plan[..i], at) && Total(pool[..m + 1]) == TotalBut(plan[..i + 1], at)
  {
    hide Total, TotalBut, Pool;
    PoolOfFirst(plan, at, i);
    PoolTotal(plan, at);
    PoolTotal(plan[..i], at);
    PoolTotal(plan[..i + 1], at);
    Beginning(Pool(plan[..i], at), plan[i], Pool(plan, at));
  }

  lemma Beginning(a: seq<Spec>, s: Spec, pool: seq<Spec>)
    requires a + [s] <= pool
    ensures pool[..|a|] == a && pool[..|a| + 1] == a + [s] && pool[|a|] == s
  {}

  /** A scan slot's draw, scaled to 1. */
  lemma SweepScaled(pool: seq<Spec>, draw: real, t: real, r: real, m: nat)
    requires Weighted(pool) && t == Total(pool) && 0.0 <= draw <= 1.0 && m < |pool| && r == ScaledTo(draw, t)
    ensures FirstReaching(Tops(pool), r) < |pool|
    ensures FirstReaching(Tops(pool), r) == m <==>
            (m == 0 || Total(pool[..m]) / t < draw) && draw <= Total(pool[..m + 1]) / t
  {
    hide Total, FirstReaching, Tops, ScaledTo;
    Scales(draw, t);
    SweepExact(pool, r, m);
    ScaledBelow(Total(pool[..m]), draw, t);
    ScaledBelow(Total(pool[..m + 1]), draw, t);
  }

  /** A draw in the interval of an entry of the plan reaches that entry in the pool first, and only it. */
  lemma DrawnIsReached(plan: seq<Spec>, at: int, draw: real, t: real, r: real, i: nat)
    requires forall s :: s in plan ==> s.weight >= 0.0
    requires t == TotalBut(plan, at) && t > 0.0 && 0.0 <= draw <= 1.0 && r == ScaledTo(draw, t)
    requires i < |plan| && plan[i].channel != at
    ensures var pool, m := Pool(plan, at), |Pool(plan[..i], at)|;
      && (DrawnBut(plan, at, draw, i) <==> FirstReaching(Tops(pool), r) == m)
      && m < |pool| && pool[m] == plan[i]
  {
    PoolAt(plan, at, i);
    PoolWeighted(plan, at);
    hide Total, TotalBut, Pool, FirstReaching, Tops, ScaledTo;
    SweepScaled(Pool(plan, at), draw, t, r, |Pool(plan[..i], at)|);
  }

  lemma Scales(draw: real, t: real)
    requires 0.0 <= draw <= 1.0 && t > 0.0
    ensures 0.0 <= ScaledTo(draw, t) <= t
  {}

  lemma ScaledBelow(a: real, draw: real, t: real)
    requires t > 0.0
    ensures a / t < draw <==> a < ScaledTo(draw, t)
    ensures draw <= a / t <==> ScaledTo(draw, t) <= a
  {
    Ordered(draw * t, a, t);
    Ordered(a, draw * t, t);
    Cancel(draw, t);
  }

  /** Main: a scan slot is on another channel than the locked one, drawn by the weights of the others; the first of them
      when they weigh nothing, and the plan's first channel when there is no other. */
  lemma ScanDwell(h: Hop, now: real, draw: real)
    requires h.channels != [] && (forall s :: s in h.channels ==> s.weight >= 0.0) && 0.0 <= draw <= 1.0
    requires h.locked.Some? && now < h.expires && h.scanEvery >= 2 && h.since + 1 >= h.scanEvery
    ensures var g, plan, at := Dwell(h, now, draw), h.channels, h.locked.value;
      && g == h.(since := 0, scanDwells := h.scanDwells + 1, scanning := true, current := g.current)
      && (TotalBut(plan, at) > 0.0 ==>
            && (exists i :: DrawnBut(plan, at, draw, i))
            && forall i :: DrawnBut(plan, at, draw, i) ==> g.current == plan[i])
      && (TotalBut(plan, at) == 0.0 ==>
            forall i :: 0 <= i < |plan| && plan[i].channel != at && (forall j :: 0 <= j < i ==> plan[j].channel == at)
                        ==> g.current == plan[i])
      && ((forall s :: s in plan ==> s.channel == at) ==> g.current == plan[0])
  {
    var plan, at := h.channels, h.locked.value;
    var pool := Pool(plan, at);
    PoolTotal(plan, at);
    PoolExact(plan, at);
    hide Total, TotalBut, Pool, FirstReaching, Shares, DrawnBut;
    if pool == [] {
      assert forall s :: s in plan ==> s.channel == at;
      NothingElse(plan, at);
    } else {
      assert pool[0] in pool;
      assert pool[0] in plan && pool[0].channel != at;
      if TotalBut(plan, at) > 0.0 {
        ScanDrawn(plan, at, draw);
      } else {
        forall i | 0 <= i < |plan| && plan[i].channel != at && (forall j :: 0 <= j < i ==> plan[j].channel == at)
          ensures pool[0] == plan[i]
        {
          PoolOfFirst(plan, at, i);
        }
      }
    }
  }

  lemma {:induction false} NothingElse(plan: seq<Spec>, at: int)
    requires forall s :: s in plan ==> s.channel == at
    ensures TotalBut(plan, at) == 0.0
  {
    if plan != [] {
      assert plan[|plan| - 1] in plan;
      NothingElse(plan[..|plan| - 1], at);
    }
  }

  lemma ScanDrawn(plan: seq<Spec>, at: int, draw: real)
    requires plan != [] && (forall s :: s in plan ==> s.weight >= 0.0) && TotalBut(plan, at) > 0.0 && 0.0 <= draw <= 1.0
    ensures exists i :: DrawnBut(plan, at, draw, i)
    ensures forall i :: DrawnBut(plan, at, draw, i) ==> SweepPick(plan, at, draw) == plan[i]
  {
    hide TotalBut, Pool, FirstReaching, Total, SweepPick, ScaledTo;
    var pool, t := Pool(plan, at), TotalBut(plan, at);
    var r := ScaledTo(draw, t);
    PoolTotal(plan, at);
    PoolWeighted(plan, at);
    NonEmpty(pool);
    SweepIs(plan, at, draw);
    SweepScaled(pool, draw, t, r, 0);
    var k := FirstReaching(Tops(pool), r);
    var source := PoolSource(plan, at, k);
    DrawnIsReached(plan, at, draw, t, r, source);
    forall i | DrawnBut(plan, at, draw, i) ensures pool[k] == plan[i] {
      DrawnIsReached(plan, at, draw, t, r, i);
    }
  }

  lemma SweepIs(plan: seq<Spec>, at: int, draw: real)
    requires plan != [] && TotalBut(plan, at) > 0.0
    ensures Pool(plan, at) != []
    ensures SweepPick(plan, at, draw) ==
            PickFrom(Tops(Pool(plan, at)), ScaledTo(draw, TotalBut(plan, at)), Pool(plan, at)[|Pool(plan, at)| - 1])
  {
    hide TotalBut, Pool, FirstReaching, Total, PickFrom, Tops, ScaledTo;
    PoolTotal(plan, at);
    NonEmpty(Pool(plan, at));
  }

  lemma NonEmpty(pool: seq<Spec>)
    requires Total(pool) > 0.0
    ensures pool != []
  {}

  /** Main: a drone heard on a channel holds the hopper there for `hold`: it is locked at exactly the times before that,
      and a dwell then, unless it is the scan slot, is on the channel. A lock that had lapsed counts as a new escalation,
      whose scan slots are counted from the start. */
  lemma HitIsHeld(h: Hop, channel: int, asked: real, now: real, later: real, draw: real)
    requires h.channels != []
    ensures var g := Hit(h, channel, asked, now);
      && (Escalated(g, later) <==> later < now + h.hold)
      && (later < now + h.hold && InPlan(h.channels, channel) ==>
            var d := Dwell(g, later, draw); !d.scanning ==> d.current.channel == channel && d.locked == Some(channel))
      && (if h.locked.Some? && asked < h.expires then g.escalations == h.escalations && g.since == h.since
          else g.escalations == h.escalations + 1 && g.since == 0)
  {
    var g := Hit(h, channel, asked, now);
    if later < now + h.hold {
      DwellLands(g, later, draw);
    }
    hide Dwell;
  }

  // ---- The plan over runs ----

  /** The plan loaded is the one the state says, and the hopper picks from it. */
  predicate InStep(w: World) {
    && (w.plan.widened ==> w.plan.solo.Some?)
    && w.hop.channels == (if w.plan.widened then w.plan.solo.value else w.plan.split)
    && Fits(w.hop.channels)
    && w.hop.cumulative == Shares(w.hop.channels)
  }

  /** The time `n` holds take. */
  function Holds(n: int, hold: real): real {
    n as real * hold
  }

  lemma HoldsStep(n: int, hold: real)
    ensures Holds(0, hold) == 0.0 && Holds(n + 1, hold) == Holds(n, hold) + hold
  {}

  lemma HoldsFit(n: int, hold: real, time: real)
    requires hold > 0.0 && Holds(n, hold) <= time
    ensures n as real <= time / hold
  {
    Ordered(n as real * hold, time, hold);
    Cancel(n as real, hold);
  }

  lemma Cancel(a: real, t: real)
    requires t > 0.0
    ensures a * t / t == a
  {}

  predicate SwapsSpaced(p: Plan, first: real) {
    && (p.swaps == 0 <==> p.changedAt.None?)
    && (p.changedAt.Some? ==> Holds(p.swaps - 1, p.minHold) <= p.changedAt.value - first)
  }

  /** The plan to be on: the solo plan for a busy peer while no own lock runs. */
  predicate WantsSolo(w: World, step: Step)
    requires step.Coordinate?
  {
    step.peerActive && (w.hop.locked.None? || w.hop.expires <= step.asked)
  }

  /** A reconciliation that swaps: there is a solo plan, the receiver is not on its fallback plan, the plan to be on is not
      the one loaded and has weight, and the last swap was at least `minHold` ago. */
  predicate SwapsAt(w: World, step: Step) {
    && step.Coordinate? && w.plan.solo.Some? && !w.plan.fallback
    && WantsSolo(w, step) != w.plan.widened
    && (w.plan.changedAt.None? || w.plan.changedAt.value + w.plan.minHold <= step.now)
    && (if WantsSolo(w, step) then Total(w.plan.solo.value) > 0.0 else Total(w.plan.split) > 0.0)
  }

  /** How many of the steps of a run are such reconciliations. */
  function SwapSteps(w: World, steps: seq<Step>): nat
    requires w.hop.channels != []
  {
    if steps == [] then 0
    else
      var front := steps[..|steps| - 1];
      SwapSteps(w, front) + if SwapsAt(Run(w, front), steps[|steps| - 1]) then 1 else 0
  }

  lemma SwapsExactly(w: World, step: Step)
    requires w.hop.channels != []
    ensures var v := Next(w, step);
      if SwapsAt(w, step) then
        && v.plan == w.plan.(widened := !w.plan.widened, swaps := w.plan.swaps + 1, changedAt := Some(step.now))
        && v.hop.channels == if v.plan.widened then w.plan.solo.value else w.plan.split
      else v.plan == w.plan
  {
    Empty();
    hide Total, Shares, Dwell, Hit;
  }

  /** Main: over any run, the swaps are exactly these reconciliations, and every one turns the flag. */
  lemma {:induction false} SwapsCounted(w: World, steps: seq<Step>)
    requires w.hop.channels != []
    ensures var v := Run(w, steps);
      && v.plan.swaps == w.plan.swaps + SwapSteps(w, steps)
      && (v.plan.widened == w.plan.widened <==> SwapSteps(w, steps) % 2 == 0)
  {
    hide Next, SwapsAt;
    if steps != [] {
      var front := steps[..|steps| - 1];
      SwapsCounted(w, front);
      SwapsExactly(Run(w, front), steps[|steps| - 1]);
    }
  }

  /** Exactly when one reconciliation keeps plan and state together: not when it swaps to channels whose weights do not
      sum to more than 0. The source's error then leaves the capture loop, so nothing follows such a step. */
  lemma ReconcileExact(w: World, peerActive: bool, asked: real, now: real)
    requires InStep(w)
    ensures var want := peerActive && !Escalated(w.hop, asked);
      InStep(Reconciled(w, peerActive, asked, now)) <==>
        (Swaps(w.plan, want, now) ==> Target(w.plan, want) == [] || Fits(Target(w.plan, want)))
  {}

  /** Main: whichever plan is loaded, it is the one the state and so the heartbeat name. */
  lemma {:induction false} RunsStayInStep(w: World, steps: seq<Step>)
    requires InStep(w) && Fits(w.plan.split) && (w.plan.solo.Some? ==> Fits(w.plan.solo.value))
    ensures var v := Run(w, steps); InStep(v) && v.plan.split == w.plan.split && v.plan.solo == w.plan.solo
  {
    hide Shares, Total, SweepPick, PickFrom, FindChannel;
    if steps != [] {
      RunsStayInStep(w, steps[..|steps| - 1]);
    }
  }

  /** One step widens only for a busy peer, and never under its own lock. */
  lemma WidensOnlyFreeHanded(w: World, step: Step)
    requires w.hop.channels != [] && !w.plan.widened && Next(w, step).plan.widened
    ensures step.Coordinate? && step.peerActive && !Escalated(w.hop, step.asked)
  {}

  /** Main: a receiver found widened was widened by a reconciliation that saw a busy peer and no lock of its own, and has
      stayed widened since. */
  lemma {:induction false} WidenedWhileFree(w: World, steps: seq<Step>) returns (k: nat)
    requires w.hop.channels != [] && !w.plan.widened && Run(w, steps).plan.widened
    ensures k < |steps| && steps[k].Coordinate? && steps[k].peerActive
    ensures !Escalated(Run(w, steps[..k]).hop, steps[k].asked) && !Run(w, steps[..k]).plan.widened
    ensures forall j :: k < j <= |steps| ==> Run(w, steps[..j]).plan.widened
  {
    hide Next, Escalated;
    var front, last := steps[..|steps| - 1], |steps| - 1;
    assert steps[..|steps|] == steps;
    if Run(w, front).plan.widened {
      k := WidenedWhileFree(w, front);
      assert front[..k] == steps[..k];
      forall j | k < j <= |steps| ensures Run(w, steps[..j]).plan.widened {
        if j <= last {
          assert front[..j] == steps[..j];
        }
      }
    } else {
      WidensOnlyFreeHanded(Run(w, front), steps[last]);
      k := last;
    }
  }

  // ---- A held lock and the plan ----

  /** Under the lock a reconciliation can only narrow; it takes the locked channel out of the plan exactly when a narrowing
      is due and the split plan, which must not be empty, lacks the channel. */
  lemma ReconcileUnderLock(w: World, peerActive: bool, asked: real, now: real)
    requires Escalated(w.hop, asked) && InPlan(w.hop.channels, w.hop.locked.value)
    ensures InPlan(Reconciled(w, peerActive, asked, now).hop.channels, w.hop.locked.value) <==>
            !(Swaps(w.plan, false, now) && w.plan.split != [] && !InPlan(w.plan.split, w.hop.locked.value))
  {
    hide InPlan, Shares, Fits;
  }

  /** A step of a run while the lock on `at` has not run out: picks before it expires, and hits on no other channel. */
  predicate Unexpired(h: Hop, step: Step, at: int) {
    match step
    case Pick(now, _) => now < h.expires
    case Heard(channel, _, _) => channel == at
    case Coordinate(_, _, _) => true
  }

  ghost predicate UnderLock(w: World, steps: seq<Step>, at: int)
    requires w.hop.channels != []
  {
    forall k :: 0 <= k < |steps| ==> Unexpired(Run(w, steps[..k]).hop, steps[k], at)
  }

  /** A pick that is no scan slot, made while the loaded plan lacks the channel. */
  predicate Misses(h: Hop, step: Step, at: int) {
    step.Pick? && !SlotDue(h) && !InPlan(h.channels, at)
  }

  lemma StepLocked(w: World, step: Step, at: int)
    requires w.hop.channels != [] && w.hop.locked == Some(at) && Unexpired(w.hop, step, at)
    ensures Next(w, step).hop.locked == Some(at) <==> !Misses(w.hop, step, at)
  {
    hide SweepPick, PickFrom, FindChannel, Shares;
    FindExact(w.hop.channels, at);
  }

  predicate LockedAt(w: World, steps: seq<Step>, at: int, k: nat)
    requires w.hop.channels != [] && k <= |steps|
  {
    Run(w, steps[..k]).hop.locked == Some(at)
  }

  ghost predicate LockedThroughout(w: World, steps: seq<Step>, at: int)
    requires w.hop.channels != []
  {
    forall k :: 0 <= k <= |steps| ==> LockedAt(w, steps, at, k)
  }

  ghost predicate NeverMisses(w: World, steps: seq<Step>, at: int)
    requires w.hop.channels != []
  {
    forall k :: 0 <= k < |steps| ==> !Misses(Run(w, steps[..k]).hop, steps[k], at)
  }

  lemma UnderLockSnoc(w: World, steps: seq<Step>, at: int)
    requires w.hop.channels != [] && steps != [] && UnderLock(w, steps, at)
    ensures var front := steps[..|steps| - 1];
      UnderLock(w, front, at) && Unexpired(Run(w, front).hop, steps[|steps| - 1], at)
  {
    hide Run, Unexpired;
    var front := steps[..|steps| - 1];
    forall k | 0 <= k < |front| ensures Unexpired(Run(w, front[..k]).hop, front[k], at) {
      assert front[..k] == steps[..k];
    }
  }

  lemma NeverMissesSnoc(w: World, steps: seq<Step>, at: int)
    requires w.hop.channels != [] && steps != []
    ensures var front := steps[..|steps| - 1];
      NeverMisses(w, steps, at) <==> NeverMisses(w, front, at) && !Misses(Run(w, front).hop, steps[|steps| - 1], at)
  {
    hide Run, Misses;
    var front := steps[..|steps| - 1];
    assert forall k :: 0 <= k <= |front| ==> front[..k] == steps[..k];
    assert forall k :: 0 <= k < |front| ==>
      Misses(Run(w, front[..k]).hop, front[k], at) == Misses(Run(w, steps[..k]).hop, steps[k], at);
    assert front == steps[..|front|];
  }

  lemma SameStart(w: World, front: seq<Step>, steps: seq<Step>, at: int, k: nat)
    requires w.hop.channels != [] && k <= |front| && front <= steps
    ensures LockedAt(w, front, at, k) == LockedAt(w, steps, at, k)
  {
    assert front[..k] == steps[..k];
  }

  lemma LockedSnoc(w: World, steps: seq<Step>, at: int)
    requires w.hop.channels != [] && steps != []
    ensures LockedThroughout(w, steps, at) <==>
            LockedThroughout(w, steps[..|steps| - 1], at) && Run(w, steps).hop.locked == Some(at)
    ensures LockedThroughout(w, steps[..|steps| - 1], at) ==> Run(w, steps[..|steps| - 1]).hop.locked == Some(at)
  {
    hide LockedAt, Run;
    var front, n := steps[..|steps| - 1], |steps| - 1;
    forall k | 0 <= k <= n ensures LockedAt(w, front, at, k) == LockedAt(w, steps, at, k) {
      SameStart(w, front, steps, at, k);
    }
    AtTheEnd(w, steps, at);
    AtTheEnd(w, front, at);
  }

  lemma AtTheEnd(w: World, steps: seq<Step>, at: int)
    requires w.hop.channels != []
    ensures LockedAt(w, steps, at, |steps|) <==> Run(w, steps).hop.locked == Some(at)
  {
    assert steps[..|steps|] == steps;
  }

  /** Main: an unexpired lock is held through a run exactly when no pick but a scan slot came while the plan then loaded
      lacked the channel. */
  lemma {:induction false} LockHeldExactly(w: World, steps: seq<Step>, at: int)
    requires w.hop.channels != [] && w.hop.locked == Some(at) && UnderLock(w, steps, at)
    ensures LockedThroughout(w, steps, at) <==> NeverMisses(w, steps, at)
  {
    if steps == [] {
      assert steps[..0] == steps;
      assert forall k :: 0 <= k <= |steps| ==> LockedAt(w, steps, at, k);
    } else {
      hide Run, Next, Misses, Unexpired, UnderLock, LockedThroughout, NeverMisses;
      var front := steps[..|steps| - 1];
      UnderLockSnoc(w, steps, at);
      LockHeldExactly(w, front, at);
      LockedSnoc(w, steps, at);
      NeverMissesSnoc(w, steps, at);
      if Run(w, front).hop.locked == Some(at) {
        StepLocked(Run(w, front), steps[|steps| - 1], at);
      }
      RunSnoc(w, steps, |front|);
      assert steps[..|front| + 1] == steps;
    }
  }

  /** So a lock on a channel of both plans is held until it runs out, whatever the peer does. */
  lemma HeldByBoth(w: World, steps: seq<Step>, at: int)
    requires InStep(w) && Fits(w.plan.split) && (w.plan.solo.Some? ==> Fits(w.plan.solo.value))
    requires w.hop.locked == Some(at) && UnderLock(w, steps, at)
    requires InPlan(w.plan.split, at) && (w.plan.solo.Some? ==> InPlan(w.plan.solo.value, at))
    ensures LockedThroughout(w, steps, at)
  {
    hide Run, InPlan, Total, Shares, SlotDue, UnderLock;
    forall k | 0 <= k < |steps| ensures !Misses(Run(w, steps[..k]).hop, steps[k], at) {
      RunsStayInStep(w, steps[..k]);
    }
    LockHeldExactly(w, steps, at);
  }

  lemma TotalOfOne(a: Spec)
    ensures Total([a]) == a.weight
  {
    assert [a][..0] == [];
  }

  lemma TotalOfTwo(a: Spec, b: Spec)
    ensures Total([a, b]) == a.weight + b.weight
  {
    TotalOfOne(a);
    assert [a, b][..1] == [a];
  }

  const SPLIT: seq<Spec> := [Spec(1, 1.0)]
  const SOLO: seq<Spec> := [Spec(1, 1.0), Spec(6, 1.0)]

  /** The shares and totals of the two plans of the example. */
  lemma ExamplePlans()
    ensures Fits(SPLIT) && Fits(SOLO) && Shares(SOLO) == [Share(0.5, SOLO[0]), Share(1.0, SOLO[1])]
  {
    TotalOfOne(SOLO[0]);
    TotalOfTwo(SOLO[0], SOLO[1]);
    assert SOLO[..1] == [SOLO[0]] && SOLO[..2] == SOLO;
  }

  lemma SecondShare(a: Spec, b: Spec)
    ensures PickFrom([Share(0.5, a), Share(1.0, b)], 1.0, b) == b
  {}

  /** A fresh receiver on the split plan, with a solo plan to widen to. */
  function Receiver(): World
    requires Fits(SPLIT)
  {
    World(Started(SPLIT, 4, 30.0), Plan(SPLIT, Some(SOLO), false, 10.0, false, 0, None))
  }

  lemma RunSnoc(w: World, steps: seq<Step>, k: nat)
    requires w.hop.channels != [] && k < |steps|
    ensures Run(w, steps[..k + 1]) == Next(Run(w, steps[..k]), steps[k])
  {
    hide Next;
    assert steps[..k + 1][..k] == steps[..k];
  }

  const EXAMPLE: seq<Step> :=
    [Coordinate(true, 0.0, 0.0), Pick(0.0, 1.0), Heard(6, 0.0, 0.0), Coordinate(true, 10.0, 10.0), Pick(10.0, 0.5)]

  lemma Widened() returns (v: World)
    ensures Fits(SPLIT) && v == Run(Receiver(), EXAMPLE[..1])
    ensures v == World(Started(SPLIT, 4, 30.0).(channels := SOLO, cumulative := Shares(SOLO)), Receiver().plan.(widened := true, swaps := 1, changedAt := Some(0.0)))
  {
    ExamplePlans();
    hide Run, Shares, Total, Fits;
    RunSnoc(Receiver(), EXAMPLE, 0);
    assert Run(Receiver(), EXAMPLE[..0]) == Receiver() by { NoSteps(Receiver(), EXAMPLE); }
    v := Run(Receiver(), EXAMPLE[..1]);
  }

  lemma NoSteps(w: World, steps: seq<Step>)
    requires w.hop.channels != []
    ensures Run(w, steps[..0]) == w
  {
    hide Next;
  }

  /** It widens for a peer, hears a drone on a channel only the solo plan has, and locks to it. */
  lemma LockedWidened()
    ensures Fits(SPLIT)
    ensures Run(Receiver(), EXAMPLE[..3]) ==
      World(Hop(SOLO, Shares(SOLO), 4, 30.0, Some(6), 30.0, 0, false, Spec(6, 1.0), 0, 1),
            Plan(SPLIT, Some(SOLO), false, 10.0, true, 1, Some(0.0)))
  {
    ExamplePlans();
    hide Run, Shares, Total, FirstReaching, PickFrom, Fits, Reconciled;
    SecondShare(SOLO[0], SOLO[1]);
    var w1 := Widened();
    RunSnoc(Receiver(), EXAMPLE, 1);
    RunSnoc(Receiver(), EXAMPLE, 2);
    var w2 := Next(w1, Pick(0.0, 1.0));
    assert w2.hop.current == Spec(6, 1.0);
  }

  /** A run in which the code drops an aircraft it is holding: its own lock makes the receiver narrow, and the next pick
      gives up a lock that had 20 seconds to go. */
  lemma NarrowedUnderLock()
    ensures Fits(SPLIT) && EXAMPLE[4] == Pick(10.0, 0.5)
    ensures var held := Run(Receiver(), EXAMPLE[..3]); held.hop.locked == Some(6) && held.hop.expires == 30.0
    ensures var v := Run(Receiver(), EXAMPLE[..5]);
      v.hop.locked.None? && v.hop.expires == 30.0 && v.hop.channels == SPLIT && !v.plan.widened
  {
    ExamplePlans();
    LockedWidened();
    hide Run, Shares, Total, PickFrom, Fits, SweepPick;
    RunSnoc(Receiver(), EXAMPLE, 3);
    RunSnoc(Receiver(), EXAMPLE, 4);
    FindExact(SPLIT, 6);
    assert FindChannel(SPLIT, 6).None?;
  }

  /** A solo plan that is refused: the hopper is left with its channels, while the plan state still says split. */
  lemma RefusedPlan() returns (w: World)
    ensures InStep(w) && w.plan.solo == Some([Spec(6, 0.0)])
    ensures var v := Reconciled(w, true, 0.0, 0.0);
      v.hop.channels == [Spec(6, 0.0)] && v.hop.cumulative == Shares(SPLIT) && !v.plan.widened && !InStep(v)
  {
    ExamplePlans();
    TotalOfOne(Spec(6, 0.0));
    hide Shares, Total;
    w := World(Started(SPLIT, 4, 30.0), Plan(SPLIT, Some([Spec(6, 0.0)]), false, 10.0, false, 0, None));
  }

  /** Every reconciliation of the run reads the clock between these two. */
  predicate Within(steps: seq<Step>, first: real, last: real) {
    forall k :: 0 <= k < |steps| && steps[k].Coordinate? ==> first <= steps[k].now <= last
  }

  ghost predicate SpacedBy(p: Plan, hold: real, first: real, last: real) {
    && SwapsSpaced(p, first)
    && p.minHold == hold
    && (p.changedAt.Some? ==> p.changedAt.value <= last)
  }

  lemma NextSpaced(w: World, step: Step, hold: real, first: real, last: real)
    requires w.hop.channels != [] && hold >= 0.0 && SpacedBy(w.plan, hold, first, last)
    requires step.Coordinate? ==> first <= step.now <= last
    ensures SpacedBy(Next(w, step).plan, hold, first, last)
  {
    hide Dwell, Hit, WithChannels, Escalated, Fits, Holds;
    HoldsStep(w.plan.swaps - 1, hold);
  }

  lemma {:induction false} SwapsStaySpaced(w: World, steps: seq<Step>, first: real, last: real)
    requires w.hop.channels != [] && w.plan.swaps == 0 && w.plan.changedAt.None? && w.plan.minHold >= 0.0
    requires Within(steps, first, last)
    ensures SpacedBy(Run(w, steps).plan, w.plan.minHold, first, last)
  {
    hide Next, SpacedBy;
    if steps == [] {
      assert SpacedBy(w.plan, w.plan.minHold, first, last) by { NeverSwapped(w.plan, first, last); }
    } else {
      var front := steps[..|steps| - 1];
      assert forall k :: 0 <= k < |front| ==> front[k] == steps[k];
      SwapsStaySpaced(w, front, first, last);
      assert steps[|steps| - 1].Coordinate? ==> first <= steps[|steps| - 1].now <= last;
      NextSpaced(Run(w, front), steps[|steps| - 1], w.plan.minHold, first, last);
    }
  }

  lemma NeverSwapped(p: Plan, first: real, last: real)
    requires p.swaps == 0 && p.changedAt.None?
    ensures SpacedBy(p, p.minHold, first, last)
  {}

  /** Main: swaps over any run number at most one more than the elapsed time holds of `minHold`. */
  lemma SwapsRateLimited(w: World, steps: seq<Step>, first: real, last: real)
    requires w.hop.channels != [] && w.plan.swaps == 0 && w.plan.changedAt.None? && w.plan.minHold > 0.0
    requires Within(steps, first, last) && first <= last
    ensures Run(w, steps).plan.swaps as real <= 1.0 + (last - first) / w.plan.minHold
  {
    hide Run, Within, Holds;
    SwapsStaySpaced(w, steps, first, last);
    var p, h := Run(w, steps).plan, w.plan.minHold;
    HoldsStep(0, h);
    HoldsFit(if p.swaps > 0 then p.swaps - 1 else 0, h, last - first);
  }

  // ---- The objects ----

  class Hopper {
    var channels: seq<Spec>
    var cumulative: seq<Share>
    const scanEvery: int
    const hold: real
    var locked: Option<int>
    var expires: real
    var since: int
    var scanning: bool
    var current: Spec
    var scanDwells: nat
    var escalations: nat

    function Value(): Hop
      reads this
    {
      Hop(channels, cumulative, scanEvery, hold, locked, expires, since, scanning, current, scanDwells, escalations)
    }

    constructor (channels: seq<Spec>, scanEvery: int, hold: real)
      requires Fits(channels)
      ensures Value() == Started(channels, scanEvery, hold)
    {
      this.channels, this.scanEvery, this.hold := channels, scanEvery, hold;
      cumulative, locked, expires, since := [], None, 0.0, 0;
      scanning, current, scanDwells, escalations := false, channels[0], 0, 0;
      new;
      var ok := RebuildWeights();
    }

    method RebuildWeights() returns (ok: bool)
      modifies `cumulative
      ensures ok == (Total(channels) > 0.0)
      ensures cumulative == if ok && channels != [] then Shares(channels) else old(cumulative)
    {
      hide Total;
      var total := SumWeights(channels);
      if total <= 0.0 {
        return false;
      }
      Empty();
      cumulative := [];
      var acc := 0.0;
      for i := 0 to |channels|
        invariant acc == Total(channels[..i]) / total
        invariant cumulative == Shares(channels)[..i]
      {
        TotalStep(channels, i);
        Apart(Total(channels[..i]), channels[i].weight, total);
        acc := acc + channels[i].weight / total;
        cumulative := cumulative + [Share(acc, channels[i])];
      }
      return true;
    }

    method SetChannels(plan: seq<Spec>) returns (ok: bool)
      modifies `channels, `cumulative
      ensures ok == Fits(plan) && Value() == WithChannels(old(Value()), plan)
    {
      if plan == [] {
        return false;
      }
      channels := plan;
      ok := RebuildWeights();
    }

    method OnDroneDetected(channel: int, asked: real, now: real)
      modifies this
      ensures Value() == Hit(old(Value()), channel, asked, now)
    {
      var was := Escalated(Value(), asked);
      locked := Some(channel);
      expires := now + hold;
      if !was {
        escalations := escalations + 1;
        since := 0;
      }
    }

    method ClaimScanSlot() returns (slot: bool)
      modifies `since
      ensures slot == SlotDue(old(Value())) && Value() == Claimed(old(Value()))
    {
      if scanEvery < 2 {
        return false;
      }
      since := since + 1;
      if since >= scanEvery {
        since := 0;
        return true;
      }
      return false;
    }

    method PickExcluding(exclude: int, draw: real) returns (spec: Spec)
      requires channels != []
      ensures spec == SweepPick(channels, exclude, draw)
    {
      hide Total, FirstReaching;
      var pool := [];
      for k := 0 to |channels|
        invariant pool == Pool(channels[..k], exclude)
      {
        assert channels[..k + 1][..k] == channels[..k];
        if channels[k].channel != exclude {
          pool := pool + [channels[k]];
        }
      }
      assert channels[..|channels|] == channels;
      if pool == [] {
        return channels[0];
      }
      var total := SumWeights(pool);
      if total <= 0.0 {
        return pool[0];
      }
      var r, acc := ScaledTo(draw, total), 0.0;
      Empty();
      for i := 0 to |pool|
        invariant acc == Total(pool[..i])
        invariant forall j :: 0 <= j < i ==> Tops(pool)[j].upTo < r
      {
        TotalStep(pool, i);
        acc := acc + pool[i].weight;
        if r <= acc {
          FirstIs(Tops(pool), r, i);
          return pool[i];
        }
      }
      FirstIs(Tops(pool), r, |pool|);
      return pool[|pool| - 1];
    }

    method NextChannel(now: real, draw: real) returns (spec: Spec)
      requires channels != []
      modifies this
      ensures Value() == Dwell(old(Value()), now, draw) && spec == current
    {
      hide SweepPick, FirstReaching;
      if locked.Some? && now < expires {
        var slot := ClaimScanSlot();
        if slot {
          scanDwells := scanDwells + 1;
          scanning := true;
          current := PickExcluding(locked.value, draw);
          return current;
        }
        for k := 0 to |channels|
          invariant FindChannel(channels, locked.value) == FindChannel(channels[k..], locked.value)
        {
          if channels[k].channel == locked.value {
            scanning := false;
            current := channels[k];
            return current;
          }
          assert channels[k..][1..] == channels[k + 1..];
        }
        locked := None;
      }
      scanning := false;
      for i := 0 to |cumulative|
        invariant forall j :: 0 <= j < i ==> cumulative[j].upTo < draw
      {
        if draw <= cumulative[i].upTo {
          FirstIs(cumulative, draw, i);
          current := cumulative[i].spec;
          return current;
        }
      }
      FirstIs(cumulative, draw, |cumulative|);
      current := channels[|channels| - 1];
      return current;
    }
  }

  class PlanState {
    const split: seq<Spec>
    const solo: Option<seq<Spec>>
    const fallback: bool
    const minHold: real
    var widened: bool
    var swaps: nat
    var changedAt: Option<real>

    function Value(): Plan
      reads this
    {
      Plan(split, solo, fallback, minHold, widened, swaps, changedAt)
    }

    constructor (split: seq<Spec>, solo: Option<seq<Spec>>, fallback: bool, minHold: real)
      ensures Value() == Plan(split, solo, fallback, minHold, false, 0, None)
    {
      this.split, this.solo, this.fallback, this.minHold := split, solo, fallback, minHold;
      widened, swaps, changedAt := false, 0, None;
    }

    /** Whether it swapped, or an error when the hopper refuses the plan. */
    method Reconcile(hopper: Hopper, peerActive: bool, asked: real, now: real) returns (r: Result<bool>)
      modifies this, hopper
      ensures World(hopper.Value(), Value()) ==
              Reconciled(World(old(hopper.Value()), old(Value())), peerActive, asked, now)
      ensures r.Err? ==> Value() == old(Value())
      ensures r.Ok? ==> (r.value <==> swaps == old(swaps) + 1)
    {
      if solo.None? || fallback {
        return Ok(false);
      }
      var want := peerActive && !Escalated(hopper.Value(), asked);
      if want == widened {
        return Ok(false);
      }
      if changedAt.Some? && now - changedAt.value < minHold {
        return Ok(false);
      }
      var ok := hopper.SetChannels(if want then solo.value else split);
      if !ok {
        return Err;
      }
      widened, swaps, changedAt := want, swaps + 1, Some(now);
      return Ok(true);
    }
  }

  method SumWeights(plan: seq<Spec>) returns (total: real)
    ensures total == Total(plan)
  {
    total := 0.0;
    for i := 0 to |plan|
      invariant total == Total(plan[..i])
    {
      TotalStep(plan, i);
      total := total + plan[i].weight;
    }
    assert plan[..|plan|] == plan;
  }

  lemma Empty()
    ensures Total([]) == 0.0
  {}

  lemma FirstIs(shares: seq<Share>, r: real, i: nat)
    requires i <= |shares| && (i < |shares| ==> r <= shares[i].upTo)
    requires forall j :: 0 <= j < i ==> shares[j].upTo < r
    ensures FirstReaching(shares, r) == i
  {}
}
