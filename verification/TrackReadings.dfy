/**
 What a track shows of its detections, read off the list of them: which fixes its trail keeps, whose words its names and
 operator are, and what its confidence is a product of.
 */
module TrackReadings {
  import opened Options
  import opened Detections
  import opened TrackRecords
  import opened TrackIndex
  import opened TrackSoundness
  import opened TrackRuns
  import opened TrackLedger

  // ---- Points ----

  /** A point is the detection's fix: its height as reported; else what the terrain below leaves of its altitude, with the
      ground that was used; else none. */
  predicate Shows(p: Position, e: Entry) {
    && e.d.position.Some?
    && p.lat == e.d.position.value.lat && p.lon == e.d.position.value.lon
    && p.altGeodeticM == e.d.position.value.altGeodeticM && p.at == e.d.ts
    && p.speedMps == (if e.d.kinematics.Some? then e.d.kinematics.value.speedMps else None)
    && p.trackDeg == (if e.d.kinematics.Some? then e.d.kinematics.value.trackDeg else None)
    && if e.d.position.value.heightAglM.None? && p.altGeodeticM.Some? && e.ground.Some?
       then p.heightAglM == Some(e.ground.value.aglM) && p.terrainElevationM == Some(e.ground.value.elevationM)
       else p.heightAglM == e.d.position.value.heightAglM && p.terrainElevationM == None
  }

  /** The detection's fix is less than the least move from the point, and within the interval of it either way. */
  predicate Near(cfg: Config, p: Position, e: Entry) {
    && e.d.position.Some? && cfg.lifecycle.historyMinMoveM > 0.0
    && cfg.dist(p.lat, p.lon, e.d.position.value.lat, e.d.position.value.lon) < cfg.lifecycle.historyMinMoveM
    && p.at - cfg.lifecycle.historyMinInterval < e.d.ts < p.at + cfg.lifecycle.historyMinInterval
  }

  /** The latest kept point up to detection `j` is point `k`, that detection's own or near it. */
  predicate CoveredBy(cfg: Config, trail: seq<Position>, at: seq<nat>, es: seq<Entry>, j: int, k: int)
    requires |trail| == |at| && 0 <= j < |es|
  {
    0 <= k < |at| && at[k] <= j && (k + 1 < |at| ==> j < at[k + 1]) && (at[k] == j || Near(cfg, trail[k], es[j]))
  }

  ghost predicate Covered(cfg: Config, trail: seq<Position>, at: seq<nat>, es: seq<Entry>, j: int)
    requires |trail| == |at| && 0 <= j < |es|
  {
    exists k :: CoveredBy(cfg, trail, at, es, j, k)
  }

  /** The points are the fixes of these detections, in the order they came. */
  ghost predicate Drawn(trail: seq<Position>, at: seq<nat>, es: seq<Entry>) {
    && |trail| == |at|
    && (forall k :: 0 <= k < |at| ==> at[k] < |es| && Shows(trail[k], es[at[k]]))
    && (forall j, k :: 0 <= j < k < |at| ==> at[j] < at[k])
  }

  /** No point is near the one before it. */
  ghost predicate Spread(cfg: Config, trail: seq<Position>, at: seq<nat>, es: seq<Entry>)
    requires Drawn(trail, at, es)
  {
    forall k :: 0 < k < |at| ==> !Near(cfg, trail[k - 1], es[at[k]])
  }

  lemma PositionShows(e: Entry)
    requires e.d.position.Some?
    ensures Shows(PositionOf(e.d, e.ground), e)
  {}

  lemma NearIsSamePlace(cfg: Config, p: Position, e: Entry)
    requires e.d.position.Some?
    ensures Near(cfg, p, e) <==> cfg.lifecycle.historyMinMoveM > 0.0 && SamePlace(cfg, p, PositionOf(e.d, e.ground))
  {}

  /** What the trail before any cap is drawn from: no fix is left out that is not near the point kept before it. */
  ghost predicate Uncapped(cfg: Config, trail: seq<Position>, at: seq<nat>, es: seq<Entry>) {
    && Drawn(trail, at, es) && Spread(cfg, trail, at, es)
    && forall j :: 0 <= j < |es| && es[j].d.position.Some? ==> Covered(cfg, trail, at, es, j)
  }

  lemma ThinMore(cfg: Config, ps: seq<Position>, p: Position)
    ensures var kept := Thin(cfg, ps);
      Thin(cfg, ps + [p]) ==
        if kept != [] && cfg.lifecycle.historyMinMoveM > 0.0 && SamePlace(cfg, kept[|kept| - 1], p) then kept else kept + [p]
  {
    hide SamePlace;
    assert (ps + [p])[..|ps|] == ps;
  }

  lemma CoveredStill(cfg: Config, trail: seq<Position>, at: seq<nat>, es: seq<Entry>, e: Entry, j: nat)
    requires |trail| == |at| && j < |es| && Covered(cfg, trail, at, es, j)
    ensures Covered(cfg, trail, at, es + [e], j)
  {
    hide Near;
    var k :| CoveredBy(cfg, trail, at, es, j, k);
    assert CoveredBy(cfg, trail, at, es + [e], j, k);
  }

  lemma CoveredYet(cfg: Config, trail: seq<Position>, at: seq<nat>, es: seq<Entry>, p: Position, e: Entry, j: nat)
    requires |trail| == |at| && j < |es| && Covered(cfg, trail, at, es, j)
    ensures Covered(cfg, trail + [p], at + [|es|], es + [e], j)
  {
    hide Near;
    var k :| CoveredBy(cfg, trail, at, es, j, k);
    assert CoveredBy(cfg, trail + [p], at + [|es|], es + [e], j, k);
  }

  /** A detection without a fix, or with one near the last point, adds no point. */
  lemma NotKept(cfg: Config, trail: seq<Position>, at: seq<nat>, es: seq<Entry>, e: Entry)
    requires Uncapped(cfg, trail, at, es)
    requires e.d.position.None? || (trail != [] && Near(cfg, trail[|trail| - 1], e))
    ensures Uncapped(cfg, trail, at, es + [e])
  {
    hide Shows, Near, Covered;
    var es1 := es + [e];
    assert es1[|es|] == e;
    forall j | 0 <= j < |es1| && es1[j].d.position.Some? ensures Covered(cfg, trail, at, es1, j) {
      if j < |es| {
        CoveredStill(cfg, trail, at, es, e, j);
      } else {
        LastCovers(cfg, trail, at, es, e);
      }
    }
  }

  lemma LastCovers(cfg: Config, trail: seq<Position>, at: seq<nat>, es: seq<Entry>, e: Entry)
    requires Drawn(trail, at, es) && trail != [] && Near(cfg, trail[|trail| - 1], e)
    ensures Covered(cfg, trail, at, es + [e], |es|)
  {
    hide Shows, Near;
    assert at[|at| - 1] < |es|;
    assert CoveredBy(cfg, trail, at, es + [e], |es|, |at| - 1);
  }

  /** A fix that is not near the last point is the next one. */
  lemma Kept(cfg: Config, trail: seq<Position>, at: seq<nat>, es: seq<Entry>, p: Position, e: Entry)
    requires Uncapped(cfg, trail, at, es) && Shows(p, e)
    requires trail != [] ==> !Near(cfg, trail[|trail| - 1], e)
    ensures Uncapped(cfg, trail + [p], at + [|es|], es + [e])
  {
    hide Shows, Near, Covered;
    var trail1, at1, es1 := trail + [p], at + [|es|], es + [e];
    assert at1[|at|] == |es| && es1[|es|] == e;
    assert Drawn(trail1, at1, es1) && Spread(cfg, trail1, at1, es1);
    forall j | 0 <= j < |es1| && es1[j].d.position.Some? ensures Covered(cfg, trail1, at1, es1, j) {
      if j < |es| {
        CoveredYet(cfg, trail, at, es, p, e, j);
      } else {
        OwnPoint(cfg, trail, at, es, p, e);
      }
    }
  }

  lemma OwnPoint(cfg: Config, trail: seq<Position>, at: seq<nat>, es: seq<Entry>, p: Position, e: Entry)
    requires |trail| == |at|
    ensures Covered(cfg, trail + [p], at + [|es|], es + [e], |es|)
  {
    hide Near;
    assert CoveredBy(cfg, trail + [p], at + [|es|], es + [e], |es|, |at|);
  }

  lemma {:induction false} ThinDrawn(cfg: Config, es: seq<Entry>) returns (at: seq<nat>)
    ensures Uncapped(cfg, Thin(cfg, Fixes(es)), at, es)
  {
    if es == [] {
      at := [];
    } else {
      hide Uncapped, Thin, Shows, Near, PositionOf, SamePlace;
      var front, e := es[..|es| - 1], es[|es| - 1];
      at := ThinDrawn(cfg, front);
      assert es == front + [e];
      var trail := Thin(cfg, Fixes(front));
      if e.d.position.None? {
        assert Fixes(es) == Fixes(front) + [];
        assert Fixes(es) == Fixes(front);
        NotKept(cfg, trail, at, front, e);
      } else {
        var p := PositionOf(e.d, e.ground);
        ThinMore(cfg, Fixes(front), p);
        assert Fixes(es) == Fixes(front) + [p];
        if trail != [] {
          NearIsSamePlace(cfg, trail[|trail| - 1], e);
        }
        if trail != [] && Near(cfg, trail[|trail| - 1], e) {
          NotKept(cfg, trail, at, front, e);
        } else {
          PositionShows(e);
          Kept(cfg, trail, at, front, p, e);
          at := at + [|front|];
        }
      }
    }
  }

  /** The trail a track shows is its detections' fixes in order; a fix from its oldest point on is missing exactly when it
      is near the point kept before it; and the oldest is the first fix of all, unless the trail is at its full depth. */
  ghost predicate TrailRead(cfg: Config, m: Measures, es: seq<Entry>, at: seq<nat>) {
    && Drawn(m.history, at, es) && Spread(cfg, m.history, at, es)
    && (forall j :: 0 <= j < |es| && es[j].d.position.Some? && at != [] && at[0] <= j ==> Covered(cfg, m.history, at, es, j))
    && (forall j :: 0 <= j < |es| && es[j].d.position.Some? && (at == [] || j < at[0]) ==>
          0 < cfg.lifecycle.historyDepth == |m.history|)
    && (cfg.lifecycle.historyDepth > 0 ==> |m.history| <= cfg.lifecycle.historyDepth)
  }

  lemma TailCovered(cfg: Config, trail: seq<Position>, at: seq<nat>, es: seq<Entry>, n: nat, j: nat)
    requires Drawn(trail, at, es) && n < |at| && j < |es| && at[n] <= j && Covered(cfg, trail, at, es, j)
    ensures Covered(cfg, trail[n..], at[n..], es, j)
  {
    hide Shows, Near;
    var k :| CoveredBy(cfg, trail, at, es, j, k);
    assert k >= n;
    assert CoveredBy(cfg, trail[n..], at[n..], es, j, k - n);
  }

  lemma TailDrawn(cfg: Config, trail: seq<Position>, at: seq<nat>, es: seq<Entry>, n: nat)
    requires Drawn(trail, at, es) && Spread(cfg, trail, at, es) && n < |at|
    ensures Drawn(trail[n..], at[n..], es) && Spread(cfg, trail[n..], at[n..], es)
  {
    hide Shows, Near;
  }

  lemma TrailReadOff(cfg: Config, m: Measures, es: seq<Entry>) returns (at: seq<nat>)
    requires Path(cfg, m, es)
    ensures TrailRead(cfg, m, es, at)
  {
    hide Thin, Fixes, Latest, Shows, Near, Drawn, Spread, Covered;
    at := ThinDrawn(cfg, es);
    var trail, depth := Thin(cfg, Fixes(es)), cfg.lifecycle.historyDepth;
    DrawnAlike(trail, at, es);
    if depth > 0 && |trail| > depth {
      var n := |trail| - depth;
      forall j | 0 <= j < |es| && es[j].d.position.Some? && at[n] <= j ensures Covered(cfg, trail[n..], at[n..], es, j) {
        TailCovered(cfg, trail, at, es, n, j);
      }
      TailDrawn(cfg, trail, at, es, n);
      at := at[n..];
    } else {
      forall j | 0 <= j < |es| && es[j].d.position.Some? ensures at != [] && at[0] <= j {
        FirstCovers(cfg, trail, at, es, j);
      }
    }
  }

  lemma DrawnAlike(trail: seq<Position>, at: seq<nat>, es: seq<Entry>)
    requires Drawn(trail, at, es)
    ensures |trail| == |at|
  {}

  lemma FirstCovers(cfg: Config, trail: seq<Position>, at: seq<nat>, es: seq<Entry>, j: nat)
    requires Drawn(trail, at, es) && j < |es| && Covered(cfg, trail, at, es, j)
    ensures at != [] && at[0] <= j
  {
    hide Shows, Near;
  }

  /** Main: over any run, every track's trail is read off its list of detections in this way. */
  lemma TrailOverRuns(cfg: Config, ws: seq<World>, steps: seq<Step>, i: nat, id: Id) returns (at: seq<nat>)
    requires IsRun(cfg, ws, steps) && i < |ws| && id in ws[i].store.tracks
    ensures id in ws[i].log && TrailRead(cfg, ws[i].store.tracks[id].data, ws[i].log[id], at)
  {
    RunsStayBooked(cfg, ws, steps, i);
    hide IsRun, Counts, Receptions, Path, TrailRead;
    at := TrailReadOff(cfg, ws[i].store.tracks[id].data, ws[i].log[id]);
  }

  // ---- Words ----

  /** The last of the strings that is not empty; empty if all are. */
  ghost predicate LastWord(x: string, said: seq<string>) {
    if x == "" then forall k :: 0 <= k < |said| ==> said[k] == ""
    else exists k :: 0 <= k < |said| && said[k] == x && forall j :: k < j < |said| ==> said[j] == ""
  }

  lemma LastWordStep(x: string, said: seq<string>, y: string)
    requires LastWord(x, said)
    ensures LastWord(if y != "" then y else x, said + [y])
  {
    var said1 := said + [y];
    if y != "" {
      assert said1[|said|] == y;
    } else if x != "" {
      var k :| 0 <= k < |said| && said[k] == x && forall j :: k < j < |said| ==> said[j] == "";
      assert said1[k] == x;
    }
  }

  function OperatorIds(es: seq<Entry>): seq<string> {
    seq(|es|, k requires 0 <= k < |es| => es[k].d.operatorId)
  }

  function UaTypes(es: seq<Entry>): seq<string> {
    seq(|es|, k requires 0 <= k < |es| => es[k].d.uaType)
  }

  /** Where the operator stood is what the last detection to report it said, with that detection's stamp. */
  ghost predicate LastOperator(p: Option<Position>, es: seq<Entry>) {
    if p.None? then forall k :: 0 <= k < |es| ==> es[k].d.operator.None?
    else exists k :: 0 <= k < |es| && es[k].d.operator.Some?
                     && p.value == Position(es[k].d.operator.value.lat, es[k].d.operator.value.lon, None, None, None, None, None, es[k].d.ts)
                     && forall j :: k < j < |es| ==> es[j].d.operator.None?
  }

  lemma LastOperatorStep(p: Option<Position>, es: seq<Entry>, e: Entry)
    requires LastOperator(p, es)
    ensures LastOperator(if e.d.operator.Some? then Some(OperatorAt(e.d)) else p, es + [e])
  {
    var es1 := es + [e];
    if e.d.operator.Some? {
      assert es1[|es|] == e;
    } else if p.Some? {
      var k :| 0 <= k < |es| && es[k].d.operator.Some?
               && p.value == Position(es[k].d.operator.value.lat, es[k].d.operator.value.lon, None, None, None, None, None, es[k].d.ts)
               && forall j :: k < j < |es| ==> es[j].d.operator.None?;
      assert es1[k] == es[k];
    }
  }

  predicate FirstOf(es: seq<Entry>, c: string, k: int) {
    0 <= k < |es| && es[k].d.class_ == c && forall j :: 0 <= j < k ==> es[j].d.class_ != c
  }

  predicate LastOf(es: seq<Entry>, c: string, k: int) {
    0 <= k < |es| && es[k].d.class_ == c && forall j :: k < j < |es| ==> es[j].d.class_ != c
  }

  /** The evidence of a class names the sensor kind of its first detection, the time of its last, and its weight as
      configured, 0 if it is not. */
  ghost predicate EvidenceRead(cfg: Config, e: Evidence, es: seq<Entry>, c: string) {
    && (exists k :: FirstOf(es, c, k) && e.sensorKind == es[k].d.sensorKind)
    && (exists k :: LastOf(es, c, k) && e.lastSeen == es[k].d.ts)
    && e.weight == if c in cfg.weights then cfg.weights[c] else 0.0
  }

  ghost predicate ClassesRead(cfg: Config, m: map<string, Evidence>, es: seq<Entry>) {
    && (forall k :: 0 <= k < |es| ==> es[k].d.class_ in m)
    && forall c :: c in m ==> EvidenceRead(cfg, m[c], es, c)
  }

  lemma EvidenceStep(cfg: Config, m: map<string, Evidence>, es: seq<Entry>, e: Entry)
    requires ClassesRead(cfg, m, es)
    ensures ClassesRead(cfg, WithEvidence(m, e.d.class_, e.d.sensorKind, cfg.Weight(e.d.class_), e.d.ts), es + [e])
  {
    var m1, es1 := WithEvidence(m, e.d.class_, e.d.sensorKind, cfg.Weight(e.d.class_), e.d.ts), es + [e];
    assert es1[|es|] == e;
    forall c | c in m1 ensures EvidenceRead(cfg, m1[c], es1, c) {
      if c in m {
        var k :| FirstOf(es, c, k) && m[c].sensorKind == es[k].d.sensorKind;
        assert FirstOf(es1, c, k) && es1[k] == es[k];
      } else {
        assert FirstOf(es1, c, |es|);
      }
      if c == e.d.class_ {
        assert LastOf(es1, c, |es|);
      } else {
        var k :| LastOf(es, c, k) && m[c].lastSeen == es[k].d.ts;
        assert LastOf(es1, c, k) && es1[k] == es[k];
      }
    }
  }

  predicate FirstFrom(es: seq<Entry>, r: string, k: int) {
    0 <= k < |es| && es[k].d.sensorId == r && forall j :: 0 <= j < k ==> es[j].d.sensorId != r
  }

  /** A receiver is of the kind its first detection said, and was last heard from at the latest of its stamps, or at 0. */
  ghost predicate ReceiverRead(x: Receiver, es: seq<Entry>, r: string) {
    && (exists k :: FirstFrom(es, r, k) && x.sensorKind == es[k].d.sensorKind)
    && (forall k :: 0 <= k < |es| && es[k].d.sensorId == r ==> es[k].d.ts <= x.lastSeen)
    && 0 <= x.lastSeen
    && (x.lastSeen == 0 || exists k :: 0 <= k < |es| && es[k].d.sensorId == r && es[k].d.ts == x.lastSeen)
  }

  ghost predicate ReceiversRead(m: map<string, Receiver>, es: seq<Entry>) {
    && (forall k :: 0 <= k < |es| && es[k].d.sensorId != "" ==> es[k].d.sensorId in m)
    && forall r :: r in m ==> r != "" && ReceiverRead(m[r], es, r)
  }

  lemma ReceiverKept(x: Receiver, es: seq<Entry>, e: Entry, r: string)
    requires ReceiverRead(x, es, r) && e.d.sensorId != r
    ensures ReceiverRead(x, es + [e], r)
  {
    var es1 := es + [e];
    var k :| FirstFrom(es, r, k) && x.sensorKind == es[k].d.sensorKind;
    assert FirstFrom(es1, r, k) && es1[k] == es[k];
    if x.lastSeen != 0 {
      var j :| 0 <= j < |es| && es[j].d.sensorId == r && es[j].d.ts == x.lastSeen;
      assert es1[j] == es[j];
    }
  }

  lemma ReceiverHeard(x: Receiver, es: seq<Entry>, e: Entry, y: Receiver)
    requires ReceiverRead(x, es, e.d.sensorId)
    requires y.sensorKind == x.sensorKind && y.lastSeen == Later(x.lastSeen, e.d.ts)
    ensures ReceiverRead(y, es + [e], e.d.sensorId)
  {
    var es1, r := es + [e], e.d.sensorId;
    assert es1[|es|] == e;
    var k :| FirstFrom(es, r, k) && x.sensorKind == es[k].d.sensorKind;
    assert FirstFrom(es1, r, k) && es1[k] == es[k];
    if x.lastSeen != 0 {
      var j :| 0 <= j < |es| && es[j].d.sensorId == r && es[j].d.ts == x.lastSeen;
      assert es1[j] == es[j];
    }
  }

  lemma ReceiverNew(es: seq<Entry>, e: Entry, y: Receiver)
    requires forall k :: 0 <= k < |es| ==> es[k].d.sensorId != e.d.sensorId
    requires y.sensorKind == e.d.sensorKind && y.lastSeen == Later(0, e.d.ts)
    ensures ReceiverRead(y, es + [e], e.d.sensorId)
  {
    var es1, r := es + [e], e.d.sensorId;
    assert es1[|es|] == e;
    assert FirstFrom(es1, r, |es|);
  }

  lemma ReceiversStep(m: map<string, Receiver>, es: seq<Entry>, e: Entry)
    requires ReceiversRead(m, es)
    ensures ReceiversRead(WithReceiver(m, e.d), es + [e])
  {
    hide ReceiverRead, Peak, Later;
    var m1, es1 := WithReceiver(m, e.d), es + [e];
    forall r | r in m1 ensures r != "" && ReceiverRead(m1[r], es1, r) {
      if r != e.d.sensorId {
        ReceiverKept(m[r], es, e, r);
      } else if r in m {
        ReceiverHeard(m[r], es, e, m1[r]);
      } else {
        ReceiverNew(es, e, m1[r]);
      }
    }
  }

  /** Whose words a track shows. */
  ghost predicate WordsRead(cfg: Config, m: Measures, es: seq<Entry>) {
    && (es != [] ==> m.vendor == es[0].d.vendorHint)
    && LastWord(m.operatorId, OperatorIds(es)) && LastWord(m.uaType, UaTypes(es))
    && LastOperator(m.operator, es)
    && ClassesRead(cfg, m.evidence, es) && ReceiversRead(m.receivers, es)
  }

  lemma FoldWords(cfg: Config, m: Measures, es: seq<Entry>, e: Entry)
    requires WordsRead(cfg, m, es) && (es == [] ==> m.vendor == e.d.vendorHint)
    ensures WordsRead(cfg, Fold(cfg, m, e.d, e.now, e.ground), es + [e])
  {
    hide LastWord, LastOperator, ClassesRead, ReceiversRead, NoisyOr, Trail, WithReceiver, WithEvidence, PositionOf, Peak;
    LastWordStep(m.operatorId, OperatorIds(es), e.d.operatorId);
    LastWordStep(m.uaType, UaTypes(es), e.d.uaType);
    assert OperatorIds(es + [e]) == OperatorIds(es) + [e.d.operatorId];
    assert UaTypes(es + [e]) == UaTypes(es) + [e.d.uaType];
    LastOperatorStep(m.operator, es, e);
    EvidenceStep(cfg, m.evidence, es, e);
    ReceiversStep(m.receivers, es, e);
    assert es != [] ==> (es + [e])[0] == es[0];
  }

  lemma NoWords(cfg: Config, d: Detection, seen: int)
    ensures WordsRead(cfg, NewTrack(d, seen).data, [])
  {}

  lemma {:induction false} MadeWords(cfg: Config, es: seq<Entry>)
    requires es != []
    ensures WordsRead(cfg, Made(cfg, es), es)
    decreases |es|
  {
    hide WordsRead, Fold;
    var front, e := es[..|es| - 1], es[|es| - 1];
    assert es == front + [e];
    if |es| == 1 {
      NoWords(cfg, e.d, Seen(e.d, e.now));
      FoldWords(cfg, NewTrack(e.d, Seen(e.d, e.now)).data, [], e);
      assert es == [] + [e];
    } else {
      MadeWords(cfg, front);
      FoldWords(cfg, Made(cfg, front), front, e);
    }
  }

  /** Main: over any run, a track's vendor is its first detection's; its operator ID, type and operator are what the last
      detection to give them gave; and each class and each receiver names its first detection's sensor kind and its own
      last time. */
  lemma WordsOverRuns(cfg: Config, ws: seq<World>, steps: seq<Step>, i: nat, id: Id)
    requires IsRun(cfg, ws, steps) && i < |ws| && id in ws[i].store.tracks
    ensures id in ws[i].log && WordsRead(cfg, ws[i].store.tracks[id].data, ws[i].log[id])
  {
    RunsStayMade(cfg, ws, steps, i);
    hide IsRun, Made, WordsRead;
    MadeWords(cfg, ws[i].log[id]);
  }

  // ---- Confidence ----

  /** The product over the listed classes of 1 less the class's weight. */
  function MissAll(cfg: Config, classes: seq<string>): real {
    if classes == [] then 1.0
    else
      var c := classes[|classes| - 1];
      MissAll(cfg, classes[..|classes| - 1]) * (1.0 - if c in cfg.weights then cfg.weights[c] else 0.0)
  }

  predicate Once(classes: seq<string>) {
    forall i, j :: 0 <= i < j < |classes| ==> classes[i] != classes[j]
  }

  lemma MissAllStep(cfg: Config, front: seq<string>, c: string)
    ensures MissAll(cfg, front + [c]) == Times(Miss(cfg.Weight(c)), MissAll(cfg, front))
  {
    assert (front + [c])[..|front|] == front;
  }

  lemma {:induction false} MissesListed(cfg: Config, m: map<string, Evidence>, classes: seq<string>)
    requires Once(classes) && (forall c :: c in classes <==> c in m)
    requires forall c :: c in m ==> m[c].weight == cfg.Weight(c)
    ensures Misses(m) == MissAll(cfg, classes)
    decreases |classes|
  {
    if classes == [] {
      assert m == map[];
    } else {
      hide Misses, MissAll, Times, Miss;
      var front, c := classes[..|classes| - 1], classes[|classes| - 1];
      assert classes == front + [c];
      assert c !in front;
      MissesAnyOrder(m, c);
      MissesListed(cfg, m - {c}, front);
      MissAllStep(cfg, front, c);
    }
  }

  /** To three decimals, halves away from zero. */
  predicate ToThousandths(x: real, rounded: real, k: int) {
    && rounded == k as real / 1000.0
    && if x >= 0.0 then k as real - 0.5 <= 1000.0 * x < k as real + 0.5
       else k as real - 0.5 < 1000.0 * x <= k as real + 0.5
  }

  lemma Rounds(x: real)
    ensures ToThousandths(x, Thousandths(x), Round(x * 1000.0))
  {}

  lemma ConfidenceRead(cfg: Config, m: Measures, es: seq<Entry>, classes: seq<string>) returns (k: int)
    requires Counts(cfg, m, es) && Once(classes) && forall c :: c in classes <==> OfClass(es, c) > 0
    ensures ToThousandths(1.0 - MissAll(cfg, classes), m.confidence, k)
  {
    hide Misses, MissAll, Sum, Thousandths, ToThousandths, OfClass, Once;
    MissesListed(cfg, m.evidence, classes);
    k := Round((1.0 - MissAll(cfg, classes)) * 1000.0);
    Rounds(1.0 - MissAll(cfg, classes));
  }

  /** Main: over any run, a track's confidence is 1 less the product, over the distinct classes it was detected by and in
      any order of them, of 1 less the class's weight; to three decimals. */
  lemma ConfidenceExactly(cfg: Config, ws: seq<World>, steps: seq<Step>, i: nat, id: Id, classes: seq<string>) returns (k: int)
    requires IsRun(cfg, ws, steps) && i < |ws| && id in ws[i].store.tracks && id in ws[i].log
    requires Once(classes) && forall c :: c in classes <==> exists j :: 0 <= j < |ws[i].log[id]| && ws[i].log[id][j].d.class_ == c
    ensures ToThousandths(1.0 - MissAll(cfg, classes), ws[i].store.tracks[id].data.confidence, k)
  {
    hide IsRun, MissAll, Booked, Counts, ToThousandths, Once;
    RunsStayBooked(cfg, ws, steps, i);
    CountsOf(cfg, ws[i], id);
    forall c ensures OfClass(ws[i].log[id], c) > 0 <==> c in classes {
      ClassCounted(ws[i].log[id], c);
    }
    k := ConfidenceRead(cfg, ws[i].store.tracks[id].data, ws[i].log[id], classes);
  }
}
