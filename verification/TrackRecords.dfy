/**
 One track as a value: the record behind a `Track` object, and the functions that say what
 each step of folding a detection does to it.
 */
module TrackRecords {
  import opened Options
  import opened Detections

  datatype State = Tentative | Confirmed | Coasting | Closed

  datatype Position = Position(
    lat: real,
    lon: real,
    altGeodeticM: Option<real>,
    heightAglM: Option<real>,
    terrainElevationM: Option<real>,
    speedMps: Option<real>,
    trackDeg: Option<real>,
    at: int)

  datatype Evidence = Evidence(sensorKind: string, weight: real, count: nat, lastSeen: int)

  datatype Receiver = Receiver(sensorKind: string, detectionCount: nat, rssiDbm: Option<real>, lastSeen: int)

  /** What a track has measured: everything a detection contributes besides identity. */
  datatype Measures = Measures(
    firstSeen: int,
    lastSeen: int,
    detectionCount: nat,
    vendor: string,
    operatorId: string,
    uaType: string,
    confidence: real,
    evidence: map<string, Evidence>,
    current: Option<Position>,
    history: seq<Position>,
    operator: Option<Position>,
    rssiDbm: Option<real>,
    receivers: map<string, Receiver>)

  datatype Track = Track(state: State, serial: string, macs: seq<string>, data: Measures)

  ghost predicate Identified(m: Measures) {
    exists c :: c in m.evidence && c !in CORROBORATING_ONLY
  }

  /** Half away from zero, as math.Round. */
  function Round(x: real): int {
    if x >= 0.0 then (x + 0.5).Floor else -((0.5 - x).Floor)
  }

  function Thousandths(x: real): real {
    Round(x * 1000.0) as real / 1000.0
  }

  /** The key a map iteration happens to visit first. */
  ghost function Pick<V>(m: map<string, V>): (c: string)
    requires m != map[]
    ensures c in m
  {
    var c :| c in m;
    c
  }

  /** The chance both of `x` and `y`: a named product, so that proofs need no nonlinear arithmetic. */
  function Times(x: real, y: real): real {
    x * y
  }

  function Miss(weight: real): real {
    1.0 - weight
  }

  /** The product of the misses, taken in an arbitrary order of the classes. */
  ghost function Misses(m: map<string, Evidence>): real
    decreases |m|
  {
    if m == map[] then 1.0 else Times(Miss(m[Pick(m)].weight), Misses(m - {Pick(m)}))
  }

  lemma Reassociate(x: real, y: real, z: real)
    ensures Times(y, Times(x, z)) == Times(x, Times(y, z))
  {}

  /** The order of the factors does not matter: any class may be taken first. */
  lemma {:induction false} MissesAnyOrder(m: map<string, Evidence>, c: string)
    requires c in m
    ensures Misses(m) == Times(Miss(m[c].weight), Misses(m - {c}))
    decreases |m|
  {
    hide Times, Miss;
    var d := Pick(m);
    if c != d {
      MissesAnyOrder(m - {d}, c);
      MissesAnyOrder(m - {c}, d);
      assert m - {d} - {c} == m - {c} - {d};
      Reassociate(Miss(m[c].weight), Miss(m[d].weight), Misses(m - {c} - {d}));
    }
  }

  /** Noisy-OR over the distinct evidence classes, to three decimals. */
  ghost function NoisyOr(m: map<string, Evidence>): real {
    Thousandths(1.0 - Misses(m))
  }

  function WithEvidence(m: map<string, Evidence>, class_: string, kind: string, weight: real, at: int): map<string, Evidence> {
    var e := if class_ in m then m[class_] else Evidence(kind, weight, 0, 0);
    m[class_ := e.(count := e.count + 1, lastSeen := at)]
  }

  /** The larger of two optional readings. */
  function Peak(old_: Option<real>, new_: Option<real>): Option<real> {
    if new_.Some? && (old_.None? || new_.value > old_.value) then new_ else old_
  }

  function Later(x: int, y: int): int {
    if y > x then y else x
  }

  function WithReceiver(m: map<string, Receiver>, d: Detection): map<string, Receiver> {
    if d.sensorId == "" then m
    else
      var r := if d.sensorId in m then m[d.sensorId] else Receiver(d.sensorKind, 0, None, 0);
      m[d.sensorId :=
        Receiver(r.sensorKind, r.detectionCount + 1, Peak(r.rssiDbm, d.rssiDbm), Later(r.lastSeen, d.ts))]
  }

  ghost predicate MayConfirm(m: Measures, lc: Lifecycle) {
    && Identified(m)
    && m.detectionCount >= lc.confirmMinDetections
    && m.lastSeen - m.firstSeen >= lc.confirmMinSpan
  }

  ghost function NextState(state: State, m: Measures, now: int, lc: Lifecycle): State {
    var since := now - m.lastSeen;
    if since > lc.closeAfter then Closed
    else if since > lc.coastAfter then
      if state.Confirmed? then Coasting else state
    else if state.Coasting? then Confirmed
    else if state.Tentative? && MayConfirm(m, lc) then Confirmed
    else state
  }

  ghost function UpdateState(t: Track, now: int, lc: Lifecycle): Track {
    t.(state := NextState(t.state, t.data, now, lc))
  }

  function Abs(x: int): nat {
    if x < 0 then -x else x
  }

  /** Close in place and in time: the aircraft has not gone anywhere since the last recorded point. */
  predicate SamePlace(cfg: Config, last: Position, p: Position) {
    && cfg.dist(last.lat, last.lon, p.lat, p.lon) < cfg.lifecycle.historyMinMoveM
    && Abs(p.at - last.at) < cfg.lifecycle.historyMinInterval
  }

  function LastN<T>(s: seq<T>, n: int): (r: seq<T>)
    ensures n > 0 ==> |r| <= n
    ensures s != [] ==> r != [] && r[|r| - 1] == s[|s| - 1]
  {
    if n > 0 && |s| > n then s[|s| - n..] else s
  }

  /** The trail after a fix: extended only when the aircraft has gone somewhere, and capped. */
  function Trail(cfg: Config, history: seq<Position>, p: Position): seq<Position> {
    if |history| > 0 && cfg.lifecycle.historyMinMoveM > 0.0 && SamePlace(cfg, history[|history| - 1], p) then history
    else LastN(history + [p], cfg.lifecycle.historyDepth)
  }

  /** The trail point a detection's fix becomes; the terrain answer is used only when the aircraft sent no height. */
  function PositionOf(d: Detection, ground: Option<Ground>): Position
    requires d.position.Some?
  {
    var f := d.position.value;
    var derive := f.heightAglM.None? && f.altGeodeticM.Some? && ground.Some?;
    Position(
      f.lat, f.lon, f.altGeodeticM,
      if derive then Some(ground.value.aglM) else f.heightAglM,
      if derive then Some(ground.value.elevationM) else None,
      if d.kinematics.Some? then d.kinematics.value.speedMps else None,
      if d.kinematics.Some? then d.kinematics.value.trackDeg else None,
      d.ts)
  }

  /** Lifecycle time: the detection's own stamp, clamped to the store's clock. */
  function Seen(d: Detection, now: int): int {
    if d.ts > now then now else d.ts
  }

  /** Where the operator stood, as a detection reports it. */
  function OperatorAt(d: Detection): Position
    requires d.operator.Some?
  {
    Position(d.operator.value.lat, d.operator.value.lon, None, None, None, None, None, d.ts)
  }

  /** Everything Ingest does to a track's measurements, before the lifecycle is advanced. */
  ghost function Fold(cfg: Config, m: Measures, d: Detection, now: int, ground: Option<Ground>): Measures {
    var evidence := WithEvidence(m.evidence, d.class_, d.sensorKind, cfg.Weight(d.class_), d.ts);
    Measures(
      m.firstSeen,
      Later(m.lastSeen, Seen(d, now)),
      m.detectionCount + 1,
      m.vendor,
      if d.operatorId != "" then d.operatorId else m.operatorId,
      if d.uaType != "" then d.uaType else m.uaType,
      NoisyOr(evidence),
      evidence,
      if d.position.Some? then Some(PositionOf(d, ground)) else m.current,
      if d.position.Some? then Trail(cfg, m.history, PositionOf(d, ground)) else m.history,
      if d.operator.Some? then Some(OperatorAt(d)) else m.operator,
      Peak(m.rssiDbm, d.rssiDbm),
      WithReceiver(m.receivers, d))
  }
}
