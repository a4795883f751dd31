/**
 What a track has measured, as a function of the detections folded into it: counts, peaks,
 confidence and trail, over any run, across closing and reopening.
 */
module TrackLedger {
  import opened Options
  import opened Detections
  import opened TrackRecords
  import opened TrackIndex
  import opened TrackSoundness
  import opened TrackRuns

  // ---- Totals over a map, whatever its order ----

  ghost function Sum(m: map<string, nat>): nat
    decreases |m|
  {
    if m == map[] then 0 else m[Pick(m)] + Sum(m - {Pick(m)})
  }

  lemma {:induction false} SumAnyOrder(m: map<string, nat>, k: string)
    requires k in m
    ensures Sum(m) == m[k] + Sum(m - {k})
    decreases |m|
  {
    var d := Pick(m);
    if k != d {
      SumAnyOrder(m - {d}, k);
      SumAnyOrder(m - {k}, d);
      assert m - {d} - {k} == m - {k} - {d};
    }
  }

  lemma SumIncremented(m: map<string, nat>, k: string)
    ensures Sum(m[k := (if k in m then m[k] else 0) + 1]) == Sum(m) + 1
  {
    var m1 := m[k := (if k in m then m[k] else 0) + 1];
    SumAnyOrder(m1, k);
    assert m1 - {k} == m - {k};
    if k in m {
      SumAnyOrder(m, k);
    } else {
      assert m - {k} == m;
    }
  }

  function EvidenceCounts(m: map<string, Evidence>): map<string, nat> {
    map c | c in m :: m[c].count
  }

  function ReceiverCounts(m: map<string, Receiver>): map<string, nat> {
    map r | r in m :: m[r].detectionCount
  }

  // ---- The reference: what the list of detections amounts to ----

  function OfClass(es: seq<Entry>, c: string): nat {
    if es == [] then 0 else OfClass(es[..|es| - 1], c) + if es[|es| - 1].d.class_ == c then 1 else 0
  }

  function FromSensor(es: seq<Entry>, r: string): nat {
    if es == [] then 0 else FromSensor(es[..|es| - 1], r) + if es[|es| - 1].d.sensorId == r then 1 else 0
  }

  /** `x` is the strongest of the readings that pass the filter; None when none was reported. */
  ghost predicate Strongest(x: Option<real>, es: seq<Entry>, from: Option<string>) {
    && (forall i :: 0 <= i < |es| && Heard(es[i], from) ==> x.Some? && es[i].d.rssiDbm.value <= x.value)
    && (x.Some? ==> exists i :: 0 <= i < |es| && Heard(es[i], from) && es[i].d.rssiDbm == x)
  }

  predicate Heard(e: Entry, from: Option<string>) {
    e.d.rssiDbm.Some? && (from.Some? ==> e.d.sensorId == from.value)
  }

  function Fixes(es: seq<Entry>): seq<Position> {
    if es == [] then []
    else
      var e := es[|es| - 1];
      Fixes(es[..|es| - 1]) + if e.d.position.Some? then [PositionOf(e.d, e.ground)] else []
  }

  /** The trail with no cap: a fix is kept unless it is the same place as the last one kept. */
  function Thin(cfg: Config, ps: seq<Position>): seq<Position> {
    if ps == [] then []
    else
      var kept, p := Thin(cfg, ps[..|ps| - 1]), ps[|ps| - 1];
      if kept != [] && cfg.lifecycle.historyMinMoveM > 0.0 && SamePlace(cfg, kept[|kept| - 1], p) then kept
      else kept + [p]
  }

  /** `t` is the largest of 0 and the clamped times. */
  ghost predicate Latest(t: int, es: seq<Entry>) {
    && 0 <= t
    && (forall i :: 0 <= i < |es| ==> Seen(es[i].d, es[i].now) <= t)
    && (t == 0 || exists i :: 0 <= i < |es| && Seen(es[i].d, es[i].now) == t)
  }

  ghost predicate Counts(cfg: Config, m: Measures, es: seq<Entry>) {
    && m.detectionCount == |es|
    && Sum(EvidenceCounts(m.evidence)) == |es|
    && ByClass(cfg, m.evidence, es)
    && m.confidence == NoisyOr(m.evidence)
  }

  ghost predicate ByClass(cfg: Config, m: map<string, Evidence>, es: seq<Entry>) {
    && (forall c :: c in m <==> OfClass(es, c) > 0)
    && (forall c :: c in m ==> m[c].count == OfClass(es, c) && m[c].weight == cfg.Weight(c))
  }

  ghost predicate Receptions(m: Measures, es: seq<Entry>) {
    && Sum(ReceiverCounts(m.receivers)) == |es| - FromSensor(es, "")
    && BySensor(m.receivers, es)
    && Strongest(m.rssiDbm, es, None)
  }

  ghost predicate BySensor(m: map<string, Receiver>, es: seq<Entry>) {
    && (forall r :: r in m <==> r != "" && FromSensor(es, r) > 0)
    && (forall r :: r in m ==> m[r].detectionCount == FromSensor(es, r))
    && (forall r :: r in m ==> Strongest(m[r].rssiDbm, es, Some(r)))
  }

  ghost predicate Path(cfg: Config, m: Measures, es: seq<Entry>) {
    && m.history == LastN(Thin(cfg, Fixes(es)), cfg.lifecycle.historyDepth)
    && m.current == (if Fixes(es) == [] then None else Some(Fixes(es)[|Fixes(es)| - 1]))
    && Latest(m.lastSeen, es)
    && (es != [] ==> m.firstSeen == Seen(es[0].d, es[0].now))
  }

  /** The counts, receptions and path of a track are what its list of detections amounts to. */
  ghost predicate Ledger(cfg: Config, m: Measures, es: seq<Entry>) {
    Counts(cfg, m, es) && Receptions(m, es) && Path(cfg, m, es)
  }

  lemma {:induction false} ClassCounted(es: seq<Entry>, c: string)
    ensures OfClass(es, c) > 0 <==> exists k :: 0 <= k < |es| && es[k].d.class_ == c
  {
    if es != [] {
      var front := es[..|es| - 1];
      ClassCounted(front, c);
      assert es[|es| - 1] in es;
      assert forall k :: 0 <= k < |front| ==> front[k] == es[k];
      if exists k :: 0 <= k < |front| && front[k].d.class_ == c {
        var k :| 0 <= k < |front| && front[k].d.class_ == c;
        assert es[k].d.class_ == c;
      }
    }
  }

  // ---- One more detection ----

  lemma ClassesStep(cfg: Config, m: map<string, Evidence>, es: seq<Entry>, e: Entry)
    requires ByClass(cfg, m, es)
    ensures ByClass(cfg, WithEvidence(m, e.d.class_, e.d.sensorKind, cfg.Weight(e.d.class_), e.d.ts), es + [e])
  {
    assert (es + [e])[..|es|] == es;
  }

  lemma EvidenceSumStep(m: map<string, Evidence>, c: string, kind: string, w: real, at: int)
    ensures Sum(EvidenceCounts(WithEvidence(m, c, kind, w, at))) == Sum(EvidenceCounts(m)) + 1
  {
    hide Sum;
    var counts := EvidenceCounts(m);
    SumIncremented(counts, c);
    assert EvidenceCounts(WithEvidence(m, c, kind, w, at)) == counts[c := (if c in counts then counts[c] else 0) + 1];
  }

  lemma FoldCounts(cfg: Config, m: Measures, es: seq<Entry>, e: Entry)
    requires Counts(cfg, m, es)
    ensures Counts(cfg, Fold(cfg, m, e.d, e.now, e.ground), es + [e])
  {
    hide ByClass, Sum, EvidenceCounts, NoisyOr, WithEvidence, WithReceiver, Trail, PositionOf, Peak;
    ClassesStep(cfg, m.evidence, es, e);
    EvidenceSumStep(m.evidence, e.d.class_, e.d.sensorKind, cfg.Weight(e.d.class_), e.d.ts);
  }

  lemma PeakStrongest(x: Option<real>, es: seq<Entry>, e: Entry, from: Option<string>)
    requires Strongest(x, es, from)
    ensures Strongest(if from.None? || e.d.sensorId == from.value then Peak(x, e.d.rssiDbm) else x, es + [e], from)
  {
    var y, es1 := if from.None? || e.d.sensorId == from.value then Peak(x, e.d.rssiDbm) else x, es + [e];
    assert es1[|es|] == e;
    if x.Some? {
      var i :| 0 <= i < |es| && Heard(es[i], from) && es[i].d.rssiDbm == x;
      assert es1[i] == es[i];
    }
  }

  lemma NothingHeard(es: seq<Entry>, r: string)
    requires FromSensor(es, r) == 0
    ensures Strongest(None, es, Some(r))
  {
    forall i | 0 <= i < |es|
      ensures es[i].d.sensorId != r
    {
      NotFrom(es, r, i);
    }
  }

  lemma {:induction false} NotFrom(es: seq<Entry>, r: string, i: nat)
    requires FromSensor(es, r) == 0 && i < |es|
    ensures es[i].d.sensorId != r
  {
    if i < |es| - 1 {
      NotFrom(es[..|es| - 1], r, i);
    }
  }

  lemma PeaksStep(m: map<string, Receiver>, es: seq<Entry>, e: Entry, r: string)
    requires BySensor(m, es) && r in WithReceiver(m, e.d)
    ensures Strongest(WithReceiver(m, e.d)[r].rssiDbm, es + [e], Some(r))
  {
    hide Strongest;
    if r in m {
      PeakStrongest(m[r].rssiDbm, es, e, Some(r));
    } else {
      NothingHeard(es, r);
      PeakStrongest(None, es, e, Some(r));
    }
  }

  lemma SensorsStep(m: map<string, Receiver>, es: seq<Entry>, e: Entry)
    requires BySensor(m, es)
    ensures BySensor(WithReceiver(m, e.d), es + [e])
  {
    var m1, es1 := WithReceiver(m, e.d), es + [e];
    assert es1[..|es|] == es;
    forall r | r in m1
      ensures Strongest(m1[r].rssiDbm, es1, Some(r))
    {
      PeaksStep(m, es, e, r);
    }
    hide Strongest, Peak;
  }

  lemma ReceiverSumStep(m: map<string, Receiver>, d: Detection)
    ensures Sum(ReceiverCounts(WithReceiver(m, d))) == Sum(ReceiverCounts(m)) + if d.sensorId == "" then 0 else 1
  {
    hide Sum, Peak;
    if d.sensorId != "" {
      var counts, r := ReceiverCounts(m), d.sensorId;
      SumIncremented(counts, r);
      assert ReceiverCounts(WithReceiver(m, d)) == counts[r := (if r in counts then counts[r] else 0) + 1];
    }
  }

  lemma FoldReceptions(cfg: Config, m: Measures, es: seq<Entry>, e: Entry)
    requires Receptions(m, es)
    ensures Receptions(Fold(cfg, m, e.d, e.now, e.ground), es + [e])
  {
    hide BySensor, Sum, ReceiverCounts, Strongest, NoisyOr, WithEvidence, WithReceiver, Trail, PositionOf, Peak;
    assert (es + [e])[..|es|] == es;
    PeakStrongest(m.rssiDbm, es, e, None);
    SensorsStep(m.receivers, es, e);
    ReceiverSumStep(m.receivers, e.d);
  }

  lemma LastNStep<T>(s: seq<T>, p: T, n: int)
    ensures LastN(LastN(s, n) + [p], n) == LastN(s + [p], n)
  {
    if n > 0 && |s| > n {
      var t := s[|s| - n..];
      assert (t + [p])[1..] == t[1..] + [p];
      assert (s + [p])[|s| + 1 - n..] == s[|s| + 1 - n..] + [p];
      assert t[1..] == s[|s| + 1 - n..];
    }
  }

  lemma LatestStep(t: int, es: seq<Entry>, e: Entry)
    requires Latest(t, es)
    ensures Latest(Later(t, Seen(e.d, e.now)), es + [e])
  {
    var es1 := es + [e];
    assert es1[|es|] == e;
    if i :| 0 <= i < |es| && Seen(es[i].d, es[i].now) == t {
      assert es1[i] == es[i];
    }
  }

  lemma TrailStep(cfg: Config, ps: seq<Position>, p: Position)
    ensures Trail(cfg, LastN(Thin(cfg, ps), cfg.lifecycle.historyDepth), p)
         == LastN(Thin(cfg, ps + [p]), cfg.lifecycle.historyDepth)
  {
    hide SamePlace;
    assert (ps + [p])[..|ps|] == ps;
    LastNStep(Thin(cfg, ps), p, cfg.lifecycle.historyDepth);
  }

  lemma FoldPath(cfg: Config, m: Measures, es: seq<Entry>, e: Entry)
    requires Path(cfg, m, es)
    requires es == [] ==> m.firstSeen == Seen(e.d, e.now)
    ensures Path(cfg, Fold(cfg, m, e.d, e.now, e.ground), es + [e])
  {
    hide Latest, Thin, Trail, LastN, PositionOf, NoisyOr, WithEvidence, WithReceiver, Peak;
    assert (es + [e])[..|es|] == es && (es + [e])[|es|] == e;
    assert es != [] ==> (es + [e])[0] == es[0];
    LatestStep(m.lastSeen, es, e);
    if e.d.position.Some? {
      TrailStep(cfg, Fixes(es), PositionOf(e.d, e.ground));
    } else {
      assert Fixes(es) + [] == Fixes(es);
    }
  }

  lemma FoldLedger(cfg: Config, m: Measures, es: seq<Entry>, e: Entry)
    requires Ledger(cfg, m, es)
    requires es == [] ==> m.firstSeen == Seen(e.d, e.now)
    ensures Ledger(cfg, Fold(cfg, m, e.d, e.now, e.ground), es + [e])
  {
    hide Counts, Receptions, Path, Fold;
    FoldCounts(cfg, m, es, e);
    FoldReceptions(cfg, m, es, e);
    FoldPath(cfg, m, es, e);
  }

  lemma NewLedger(cfg: Config, d: Detection, seen: int)
    ensures Ledger(cfg, NewTrack(d, seen).data, [])
  {}

  // ---- Every run ----

  /** Every track ever minted is accounted for by its own, non-empty, list of detections. */
  ghost predicate Booked(cfg: Config, w: World) {
    && w.log.Keys == w.store.tracks.Keys
    && forall id :: id in w.store.tracks ==> w.log[id] != [] && Ledger(cfg, w.store.tracks[id].data, w.log[id])
  }

  lemma IngestBooked(cfg: Config, w: World, e: Entry, newId: Id)
    requires Booked(cfg, w) && Enabled(w, Detect(e, newId))
    ensures Booked(cfg, Next(cfg, w, Detect(e, newId)))
  {
    hide Ledger, Attribute, Fold, NextState, WellFormed;
    if e.d.class_ != CLASS_ADSB {
      var seen := Seen(e.d, e.now);
      AttributeMeasures(cfg, w.store, e.d, e.now, newId);
      var (s1, found) := Attribute(cfg, w.store, e.d, e.now, newId);
      if found.Some? {
        var id := found.value;
        NewLedger(cfg, e.d, seen);
        FoldLedger(cfg, s1.tracks[id].data, Logged(w.log, id), e);
      }
    }
  }

  lemma ReapBooked(cfg: Config, w: World, now: int, order: seq<Id>)
    requires Booked(cfg, w) && Sound(w.store) && Enabled(w, Tick(now, order))
    ensures Booked(cfg, Next(cfg, w, Tick(now, order)))
  {
    hide Ledger, Reap, Sound, NextState, WellFormed;
    ReapKeepsSound(cfg, w.store, now, order);
  }

  lemma StartBooked(cfg: Config)
    ensures Booked(cfg, START)
  {}

  lemma NextKeepsBooked(cfg: Config, w: World, step: Step)
    requires Booked(cfg, w) && Sound(w.store) && Enabled(w, step)
    ensures Booked(cfg, Next(cfg, w, step))
  {
    hide Booked, Next, Sound, Enabled;
    match step
    case Detect(e, newId) => IngestBooked(cfg, w, e, newId);
    case Tick(now, order) => ReapBooked(cfg, w, now, order);
  }

  /** Main: over any run, every track's counts, receptions and path are what the detections folded into it amount to. */
  lemma {:induction false} RunsStayBooked(cfg: Config, ws: seq<World>, steps: seq<Step>, i: nat)
    requires IsRun(cfg, ws, steps) && i < |ws|
    ensures Booked(cfg, ws[i])
  {
    hide Booked, Next, Sound, Enabled, Corroborated, Clocked;
    if i == 0 {
      StartBooked(cfg);
    } else {
      RunsStayBooked(cfg, ws, steps, i - 1);
      RunsStayValid(cfg, ws, steps, i - 1);
      NextKeepsBooked(cfg, ws[i - 1], steps[i - 1]);
    }
  }

  /** All a track has measured, made from its list of detections alone: the first starts it, each is folded in. */
  ghost function Made(cfg: Config, es: seq<Entry>): Measures
    requires es != []
    decreases |es|
  {
    var e := es[|es| - 1];
    var before := if |es| == 1 then NewTrack(e.d, Seen(e.d, e.now)).data else Made(cfg, es[..|es| - 1]);
    Fold(cfg, before, e.d, e.now, e.ground)
  }

  lemma MadeFirst(cfg: Config, e: Entry)
    ensures Made(cfg, [e]) == Fold(cfg, NewTrack(e.d, Seen(e.d, e.now)).data, e.d, e.now, e.ground)
  {
    hide Fold, NewTrack;
  }

  lemma MadeNext(cfg: Config, es: seq<Entry>, e: Entry)
    requires es != []
    ensures Made(cfg, es + [e]) == Fold(cfg, Made(cfg, es), e.d, e.now, e.ground)
  {
    hide Fold, NewTrack;
    assert (es + [e])[..|es|] == es;
  }

  lemma FoldMade(cfg: Config, m: Measures, es: seq<Entry>, e: Entry)
    requires m == if es == [] then NewTrack(e.d, Seen(e.d, e.now)).data else Made(cfg, es)
    ensures Fold(cfg, m, e.d, e.now, e.ground) == Made(cfg, es + [e])
  {
    hide Made, Fold, NewTrack;
    if es == [] {
      MadeFirst(cfg, e);
      assert es + [e] == [e];
    } else {
      MadeNext(cfg, es, e);
    }
  }

  /** The measurements of every track are a function of its list of detections. */
  ghost predicate Remade(cfg: Config, w: World) {
    && w.log.Keys == w.store.tracks.Keys
    && forall id :: id in w.store.tracks ==> w.log[id] != [] && w.store.tracks[id].data == Made(cfg, w.log[id])
  }

  lemma IngestRemade(cfg: Config, w: World, e: Entry, newId: Id)
    requires Remade(cfg, w) && Enabled(w, Detect(e, newId))
    ensures Remade(cfg, Next(cfg, w, Detect(e, newId)))
  {
    hide Attribute, Fold, Made, NewTrack, NextState, WellFormed, SameMeasures, MayConfirm, Seen;
    if e.d.class_ != CLASS_ADSB {
      AttributeMeasures(cfg, w.store, e.d, e.now, newId);
      var (s1, found) := Attribute(cfg, w.store, e.d, e.now, newId);
      if found.Some? {
        FoldMade(cfg, s1.tracks[found.value].data, Logged(w.log, found.value), e);
      }
    }
  }

  lemma NextRemade(cfg: Config, w: World, step: Step)
    requires Remade(cfg, w) && Sound(w.store) && Enabled(w, step)
    ensures Remade(cfg, Next(cfg, w, step))
  {
    match step
    case Detect(e, newId) =>
      hide Remade, Next, Sound, Enabled;
      IngestRemade(cfg, w, e, newId);
    case Tick(now, order) =>
      hide Made, Reap, Sound, NextState, WellFormed;
      ReapKeepsSound(cfg, w.store, now, order);
  }

  /** Main: over any run, a track's measurements, all of them, are what its list of detections alone makes. */
  lemma {:induction false} RunsStayMade(cfg: Config, ws: seq<World>, steps: seq<Step>, i: nat)
    requires IsRun(cfg, ws, steps) && i < |ws|
    ensures Remade(cfg, ws[i])
  {
    hide Made, Next, Sound, Enabled, Corroborated, Clocked;
    if i > 0 {
      hide Remade;
      RunsStayMade(cfg, ws, steps, i - 1);
      RunsStayValid(cfg, ws, steps, i - 1);
      NextRemade(cfg, ws[i - 1], steps[i - 1]);
    }
  }

  // ---- What follows for a reader of a track ----

  /** The track's peak is the strongest of its receivers' peaks, when every detection names its sensor. */
  lemma PeakOverReceivers(m: Measures, es: seq<Entry>)
    requires Receptions(m, es) && FromSensor(es, "") == 0
    ensures forall r :: r in m.receivers && m.receivers[r].rssiDbm.Some? ==>
              m.rssiDbm.Some? && m.receivers[r].rssiDbm.value <= m.rssiDbm.value
    ensures m.rssiDbm.Some? ==> exists r :: r in m.receivers && m.receivers[r].rssiDbm == m.rssiDbm
  {
    forall r | r in m.receivers && m.receivers[r].rssiDbm.Some?
      ensures m.rssiDbm.Some? && m.receivers[r].rssiDbm.value <= m.rssiDbm.value
    {
      var i :| 0 <= i < |es| && Heard(es[i], Some(r)) && es[i].d.rssiDbm == m.receivers[r].rssiDbm;
      assert Heard(es[i], None);
    }
    if m.rssiDbm.Some? {
      var i :| 0 <= i < |es| && Heard(es[i], None) && es[i].d.rssiDbm == m.rssiDbm;
      var r := es[i].d.sensorId;
      NotFrom(es, "", i);
      IsFrom(es, r, i);
      assert Heard(es[i], Some(r));
      assert m.receivers[r].rssiDbm.value >= m.rssiDbm.value;
      var j :| 0 <= j < |es| && Heard(es[j], Some(r)) && es[j].d.rssiDbm == m.receivers[r].rssiDbm;
      assert Heard(es[j], None);
      assert m.receivers[r].rssiDbm == m.rssiDbm;
    }
  }

  lemma {:induction false} IsFrom(es: seq<Entry>, r: string, i: nat)
    requires i < |es| && es[i].d.sensorId == r
    ensures FromSensor(es, r) > 0
  {
    if i < |es| - 1 {
      IsFrom(es[..|es| - 1], r, i);
    }
  }

  /** Adjacent kept points are apart in place or in time. */
  lemma {:induction false} ThinApart(cfg: Config, ps: seq<Position>, i: nat)
    requires forall a, b, c, d :: cfg.dist(a, b, c, d) >= 0.0
    requires i + 1 < |Thin(cfg, ps)|
    ensures var t := Thin(cfg, ps);
      || cfg.dist(t[i].lat, t[i].lon, t[i + 1].lat, t[i + 1].lon) >= cfg.lifecycle.historyMinMoveM
      || Abs(t[i + 1].at - t[i].at) >= cfg.lifecycle.historyMinInterval
  {
    if i + 1 < |Thin(cfg, ps[..|ps| - 1])| {
      ThinApart(cfg, ps[..|ps| - 1], i);
    }
  }

  /** Main: the trail a track shows never repeats a place within the interval, and is never over the cap. */
  lemma TrailApart(cfg: Config, m: Measures, es: seq<Entry>, i: nat)
    requires Path(cfg, m, es) && (forall a, b, c, d :: cfg.dist(a, b, c, d) >= 0.0)
    requires i + 1 < |m.history|
    ensures var h := m.history;
      || cfg.dist(h[i].lat, h[i].lon, h[i + 1].lat, h[i + 1].lon) >= cfg.lifecycle.historyMinMoveM
      || Abs(h[i + 1].at - h[i].at) >= cfg.lifecycle.historyMinInterval
    ensures cfg.lifecycle.historyDepth > 0 ==> |m.history| <= cfg.lifecycle.historyDepth
  {
    ThinApart(cfg, Fixes(es), |Thin(cfg, Fixes(es))| - |m.history| + i);
  }

  // ---- Confidence ----

  ghost predicate Fractions(m: map<string, Evidence>) {
    forall c :: c in m ==> 0.0 <= m[c].weight <= 1.0
  }

  lemma ProductNonNegative(x: real, y: real)
    requires 0.0 <= x && 0.0 <= y
    ensures 0.0 <= x * y
  {
    if x > 0.0 && y > 0.0 {
      assert x * y > 0.0;
    }
  }

  lemma FractionOf(x: real, y: real)
    requires 0.0 <= x <= 1.0 && 0.0 <= y <= 1.0
    ensures 0.0 <= Times(x, y) <= y
  {
    ProductNonNegative(x, y);
    ProductNonNegative(1.0 - x, y);
    assert (1.0 - x) * y == y - x * y;
  }

  lemma MissIsFraction(w: real)
    requires 0.0 <= w <= 1.0
    ensures 0.0 <= Miss(w) <= 1.0
  {}

  lemma {:induction false} MissesBounded(m: map<string, Evidence>)
    requires Fractions(m)
    ensures 0.0 <= Misses(m) <= 1.0
    decreases |m|
  {
    if m != map[] {
      hide Times, Miss;
      MissesBounded(m - {Pick(m)});
      MissIsFraction(m[Pick(m)].weight);
      FractionOf(Miss(m[Pick(m)].weight), Misses(m - {Pick(m)}));
    }
  }

  lemma MissesWithEvidence(m: map<string, Evidence>, c: string, kind: string, w: real, at: int)
    requires Fractions(m) && 0.0 <= w <= 1.0
    ensures Fractions(WithEvidence(m, c, kind, w, at))
    ensures Misses(WithEvidence(m, c, kind, w, at)) <= Misses(m)
  {
    var m1 := WithEvidence(m, c, kind, w, at);
    MissesAnyOrder(m1, c);
    assert m1 - {c} == m - {c};
    hide Misses, Miss, Times;
    if c in m {
      MissesAnyOrder(m, c);
      assert m1[c].weight == m[c].weight;
    } else {
      assert m - {c} == m && m1[c].weight == w;
      MissesBounded(m);
      MissIsFraction(w);
      FractionOf(Miss(w), Misses(m));
    }
  }

  lemma ThousandthsMonotone(x: real, y: real)
    requires 0.0 <= x <= y <= 1.0
    ensures 0.0 <= Thousandths(x) <= Thousandths(y) <= 1.0
  {
    assert x * 1000.0 + 0.5 <= y * 1000.0 + 0.5 <= 1000.5;
    assert 0 <= Round(x * 1000.0) <= Round(y * 1000.0) <= 1000;
  }

  ghost predicate FractionalWeights(cfg: Config) {
    forall c :: 0.0 <= cfg.Weight(c) <= 1.0
  }

  /** Main: with fractional weights, confidence stays within [0, 1] and no detection ever lowers it. */
  lemma ConfidenceNeverFalls(cfg: Config, m: Measures, es: seq<Entry>, e: Entry)
    requires FractionalWeights(cfg) && Counts(cfg, m, es)
    ensures 0.0 <= m.confidence <= Fold(cfg, m, e.d, e.now, e.ground).confidence <= 1.0
  {
    var m1 := WithEvidence(m.evidence, e.d.class_, e.d.sensorKind, cfg.Weight(e.d.class_), e.d.ts);
    MissesWithEvidence(m.evidence, e.d.class_, e.d.sensorKind, cfg.Weight(e.d.class_), e.d.ts);
    MissesBounded(m.evidence);
    MissesBounded(m1);
    ThousandthsMonotone(1.0 - Misses(m.evidence), 1.0 - Misses(m1));
  }

  /** A step leaves a track's measurements alone, or folds one detection into them. */
  lemma StepMeasures(cfg: Config, w: World, step: Step, id: Id)
    requires Sound(w.store) && Enabled(w, step) && id in w.store.tracks
    ensures var v := Next(cfg, w, step);
      && id in v.store.tracks
      && (|| v.store.tracks[id].data == w.store.tracks[id].data
          || (step.Detect? && var e := step.entry;
              v.store.tracks[id].data == Fold(cfg, w.store.tracks[id].data, e.d, e.now, e.ground)))
  {
    hide Attribute, Fold, NextState, WellFormed, Sound, Reap;
    match step
    case Detect(e, newId) =>
      AttributeMeasures(cfg, w.store, e.d, e.now, newId);
    case Tick(now, order) =>
      ReapKeepsSound(cfg, w.store, now, order);
  }

  lemma StepConfidence(cfg: Config, w: World, step: Step, id: Id, es: seq<Entry>)
    requires FractionalWeights(cfg)
    requires Sound(w.store) && Enabled(w, step) && id in w.store.tracks && Counts(cfg, w.store.tracks[id].data, es)
    ensures var v := Next(cfg, w, step);
      id in v.store.tracks && w.store.tracks[id].data.confidence <= v.store.tracks[id].data.confidence
  {
    hide Next, Sound, Enabled, Fold, ByClass, Sum, NoisyOr;
    StepMeasures(cfg, w, step, id);
    if step.Detect? {
      ConfidenceNeverFalls(cfg, w.store.tracks[id].data, es, step.entry);
    }
  }

  /** Main: over any run, closing and reopening included, a track's confidence never falls and stays within [0, 1]. */
  lemma {:induction false} ConfidenceOverRuns(cfg: Config, ws: seq<World>, steps: seq<Step>, i: nat, j: nat, id: Id)
    requires FractionalWeights(cfg) && IsRun(cfg, ws, steps) && i <= j < |ws| && id in ws[i].store.tracks
    ensures id in ws[j].store.tracks
    ensures 0.0 <= ws[i].store.tracks[id].data.confidence <= ws[j].store.tracks[id].data.confidence <= 1.0
    decreases j - i
  {
    hide FractionalWeights, Booked, Counts, Next, Sound, Enabled, Corroborated, Clocked;
    RunsStayBooked(cfg, ws, steps, j);
    if i == j {
      CountsOf(cfg, ws[i], id);
      ConfidenceBounded(cfg, ws[i].store.tracks[id].data, ws[i].log[id]);
    } else {
      ConfidenceOverRuns(cfg, ws, steps, i, j - 1, id);
      RunsStayBooked(cfg, ws, steps, j - 1);
      RunsStayValid(cfg, ws, steps, j - 1);
      CountsOf(cfg, ws[j - 1], id);
      StepConfidence(cfg, ws[j - 1], steps[j - 1], id, ws[j - 1].log[id]);
      CountsOf(cfg, ws[j], id);
      ConfidenceBounded(cfg, ws[j].store.tracks[id].data, ws[j].log[id]);
    }
  }

  lemma ConfidenceBounded(cfg: Config, m: Measures, es: seq<Entry>)
    requires FractionalWeights(cfg) && Counts(cfg, m, es) && es != []
    ensures 0.0 <= m.confidence <= 1.0
  {
    ConfidenceNeverFalls(cfg, m, es, es[0]);
  }

  lemma CountsOf(cfg: Config, w: World, id: Id)
    requires Booked(cfg, w) && id in w.store.tracks
    ensures id in w.log && w.log[id] != [] && Counts(cfg, w.store.tracks[id].data, w.log[id])
  {
    hide Counts, Receptions, Path;
  }
}
