/**
 The store as fusion builds it: `Track` objects updated in place and shared between five maps.
 Each method is proved to do to the abstract store exactly what its specification function does,
 so the run theorems hold of the objects.
 */
module TrackStores {
  import opened Options
  import opened Detections
  import R = TrackRecords
  import I = TrackIndex
  import S = TrackSoundness

  type Id = I.Id

  class Track {
    const id: Id
    var state: R.State
    var firstSeen: int
    var lastSeen: int
    var detectionCount: nat
    var serial: string
    var macs: seq<string>
    var vendor: string
    var operatorId: string
    var uaType: string
    var confidence: real
    var evidence: map<string, R.Evidence>
    var current: Option<R.Position>
    var history: seq<R.Position>
    var operator: Option<R.Position>
    var rssiDbm: Option<real>
    var receivers: map<string, R.Receiver>

    function Data(): R.Measures
      reads this
    {
      R.Measures(firstSeen, lastSeen, detectionCount, vendor, operatorId, uaType, confidence, evidence,
                 current, history, operator, rssiDbm, receivers)
    }

    function Value(): R.Track
      reads this
    {
      R.Track(state, serial, macs, Data())
    }

    constructor (id: Id, d: Detection, seen: int)
      ensures this.id == id && Value() == I.NewTrack(d, seen)
    {
      this.id := id;
      state, firstSeen, lastSeen, detectionCount := R.Tentative, seen, 0, 0;
      serial, macs, vendor, operatorId, uaType := d.serial, [], d.vendorHint, "", "";
      confidence, evidence, current, history, operator := 0.0, map[], None, [], None;
      rssiDbm, receivers := None, map[];
    }

    /** Noisy-OR over the evidence, in whatever order the map yields it. */
    method RecomputeConfidence()
      modifies this`confidence
      ensures confidence == R.NoisyOr(evidence)
    {
      var product, rest := 1.0, evidence;
      while rest != map[]
        invariant R.Misses(evidence) == R.Times(product, R.Misses(rest))
        decreases |rest|
      {
        var c :| c in rest;
        R.MissesAnyOrder(rest, c);
        TimesAssociates(product, R.Miss(rest[c].weight), R.Misses(rest - {c}));
        product := R.Times(product, R.Miss(rest[c].weight));
        rest := rest - {c};
      }
      confidence := R.Thousandths(1.0 - product);
    }

    method AddEvidence(class_: string, kind: string, weight: real, at: int)
      modifies this`evidence, this`confidence
      ensures evidence == R.WithEvidence(old(evidence), class_, kind, weight, at)
      ensures confidence == R.NoisyOr(evidence)
    {
      if class_ !in evidence {
        evidence := evidence[class_ := R.Evidence(kind, weight, 0, 0)];
      }
      var e := evidence[class_];
      evidence := evidence[class_ := e.(count := e.count + 1, lastSeen := at)];
      RecomputeConfidence();
    }

    method NoteReceiver(d: Detection)
      modifies this`receivers
      ensures receivers == R.WithReceiver(old(receivers), d)
    {
      if d.sensorId == "" {
        return;
      }
      if d.sensorId !in receivers {
        receivers := receivers[d.sensorId := R.Receiver(d.sensorKind, 0, None, 0)];
      }
      var r := receivers[d.sensorId];
      r := r.(detectionCount := r.detectionCount + 1);
      if d.ts > r.lastSeen {
        r := r.(lastSeen := d.ts);
      }
      if d.rssiDbm.Some? && (r.rssiDbm.None? || d.rssiDbm.value > r.rssiDbm.value) {
        r := r.(rssiDbm := d.rssiDbm);
      }
      receivers := receivers[d.sensorId := r];
    }

    method Identified() returns (b: bool)
      ensures b <==> R.Identified(Data())
    {
      var rest := evidence;
      while rest != map[]
        invariant rest.Keys <= evidence.Keys
        invariant forall c :: c in evidence && c !in rest ==> c in CORROBORATING_ONLY
        decreases |rest|
      {
        var c :| c in rest;
        if c !in CORROBORATING_ONLY {
          return true;
        }
        rest := rest - {c};
      }
      return false;
    }

    method UpdateState(now: int, lc: Lifecycle)
      modifies this`state
      ensures Value() == R.UpdateState(old(Value()), now, lc)
    {
      var since := now - lastSeen;
      if since > lc.closeAfter {
        state := R.Closed;
      } else if since > lc.coastAfter {
        if state.Confirmed? {
          state := R.Coasting;
        }
      } else if state.Coasting? {
        state := R.Confirmed;
      } else if state.Tentative? {
        var identified := Identified();
        if identified && detectionCount >= lc.confirmMinDetections && lastSeen - firstSeen >= lc.confirmMinSpan {
          state := R.Confirmed;
        }
      }
    }

    method AddPosition(p: R.Position, cfg: Config)
      modifies this`current, this`history
      ensures current == Some(p) && history == R.Trail(cfg, old(history), p)
    {
      current := Some(p);
      if |history| > 0 && cfg.lifecycle.historyMinMoveM > 0.0 {
        var last := history[|history| - 1];
        var moved := cfg.dist(last.lat, last.lon, p.lat, p.lon);
        var elapsed := R.Abs(p.at - last.at);
        if moved < cfg.lifecycle.historyMinMoveM && elapsed < cfg.lifecycle.historyMinInterval {
          return;
        }
      }
      history := history + [p];
      if cfg.lifecycle.historyDepth > 0 && |history| > cfg.lifecycle.historyDepth {
        history := history[|history| - cfg.lifecycle.historyDepth..];
      }
    }

    method NoteOperator(d: Detection)
      modifies this`operatorId, this`uaType
      ensures operatorId == if d.operatorId != "" then d.operatorId else old(operatorId)
      ensures uaType == if d.uaType != "" then d.uaType else old(uaType)
    {
      if d.operatorId != "" {
        operatorId := d.operatorId;
      }
      if d.uaType != "" {
        uaType := d.uaType;
      }
    }

    method NoteDetection(cfg: Config, d: Detection, now: int)
      modifies this`lastSeen, this`detectionCount, this`evidence, this`confidence, this`receivers, this`rssiDbm
      ensures lastSeen == R.Later(old(lastSeen), R.Seen(d, now))
      ensures detectionCount == old(detectionCount) + 1
      ensures evidence == R.WithEvidence(old(evidence), d.class_, d.sensorKind, cfg.Weight(d.class_), d.ts)
      ensures confidence == R.NoisyOr(evidence)
      ensures receivers == R.WithReceiver(old(receivers), d)
      ensures rssiDbm == R.Peak(old(rssiDbm), d.rssiDbm)
    {
      hide R.NoisyOr, R.WithEvidence, R.WithReceiver;
      if R.Seen(d, now) > lastSeen {
        lastSeen := R.Seen(d, now);
      }
      detectionCount := detectionCount + 1;
      AddEvidence(d.class_, d.sensorKind, cfg.Weight(d.class_), d.ts);
      NoteReceiver(d);
      if d.rssiDbm.Some? && (rssiDbm.None? || d.rssiDbm.value > rssiDbm.value) {
        rssiDbm := d.rssiDbm;
      }
    }

    method NoteFix(cfg: Config, d: Detection, ground: Option<Ground>)
      modifies this`current, this`history, this`operator
      ensures current == if d.position.Some? then Some(R.PositionOf(d, ground)) else old(current)
      ensures history == if d.position.Some? then R.Trail(cfg, old(history), R.PositionOf(d, ground)) else old(history)
      ensures operator == if d.operator.Some? then Some(R.OperatorAt(d)) else old(operator)
    {
      hide R.Trail, R.PositionOf;
      if d.position.Some? {
        AddPosition(R.PositionOf(d, ground), cfg);
      }
      if d.operator.Some? {
        operator := Some(R.OperatorAt(d));
      }
    }

    /** The measuring half of Ingest, field by field. */
    method Fold(cfg: Config, d: Detection, now: int, ground: Option<Ground>)
      modifies this
      ensures Value() == old(Value()).(data := R.Fold(cfg, old(Data()), d, now, ground))
    {
      hide R.NoisyOr, R.WithEvidence, R.WithReceiver, R.Trail, R.PositionOf, R.OperatorAt, R.Peak, R.Later, R.Seen;
      NoteOperator(d);
      NoteDetection(cfg, d, now);
      NoteFix(cfg, d, ground);
    }
  }

  ghost predicate OwnIds(m: map<Id, Track>) {
    forall id :: id in m ==> m[id].id == id
  }

  ghost predicate Member(t: Track, objects: map<Id, Track>) {
    t.id in objects && objects[t.id] == t
  }

  ghost predicate Refers(m: map<string, Track>, objects: map<Id, Track>) {
    forall k :: k in m ==> Member(m[k], objects)
  }

  ghost function Ids(m: map<string, Track>): (r: map<string, Id>)
    ensures r.Keys == m.Keys
  {
    map k | k in m :: m[k].id
  }

  lemma At(m: map<string, Track>, k: string, objects: map<Id, Track>)
    requires Refers(m, objects) && k in m
    ensures Member(m[k], objects) && Ids(m)[k] == m[k].id
  {}

  lemma Put(m: map<string, Track>, k: string, t: Track, objects: map<Id, Track>)
    requires Refers(m, objects) && Member(t, objects)
    ensures Refers(m[k := t], objects) && Ids(m[k := t]) == Ids(m)[k := t.id]
  {}

  lemma Drop(m: map<string, Track>, keys: set<string>, objects: map<Id, Track>)
    requires Refers(m, objects)
    ensures Refers(m - keys, objects) && Ids(m - keys) == Ids(m) - keys
  {}

  lemma SameTrack(t: Track, u: Track, objects: map<Id, Track>)
    requires Member(t, objects) && Member(u, objects)
    ensures t == u <==> t.id == u.id
  {}

  lemma SetOfStep(xs: seq<string>, i: nat)
    requires i < |xs|
    ensures I.SetOf(xs[..i + 1]) == I.SetOf(xs[..i]) + {xs[i]}
  {
    assert xs[..i + 1] == xs[..i] + [xs[i]];
  }

  lemma BindStep(m: map<string, Id>, xs: seq<string>, i: nat, id: Id)
    requires i < |xs|
    ensures I.BindAll(m, xs[..i + 1], id) == I.BindAll(m, xs[..i], id)[xs[i] := id]
  {
    assert xs[..i + 1] == xs[..i] + [xs[i]];
  }

  lemma ReleaseStep(m: map<string, Id>, keys: set<string>, k: string, id: Id)
    ensures var r := I.Release(m, keys, id);
            I.Release(m, keys + {k}, id) == if k in r && r[k] == id then r - {k} else r
  {}

  /** Binds every key of `xs` to the track. */
  method BindEach(m: map<string, Track>, xs: seq<string>, t: Track, ghost objects: map<Id, Track>)
    returns (r: map<string, Track>)
    requires Refers(m, objects) && Member(t, objects)
    ensures Refers(r, objects) && Ids(r) == I.BindAll(Ids(m), xs, t.id)
  {
    r := m;
    assert Ids(r) == I.BindAll(Ids(m), xs[..0], t.id);
    hide Ids, Refers, I.BindAll;
    for i := 0 to |xs|
      invariant Refers(r, objects)
      invariant Ids(r) == I.BindAll(Ids(m), xs[..i], t.id)
    {
      Put(r, xs[i], t, objects);
      BindStep(Ids(m), xs, i, t.id);
      r := r[xs[i] := t];
    }
    assert xs[..|xs|] == xs;
  }

  /** Deletes every key of `xs`. */
  method DropEach(m: map<string, Track>, xs: seq<string>, ghost objects: map<Id, Track>) returns (r: map<string, Track>)
    requires Refers(m, objects)
    ensures Refers(r, objects) && Ids(r) == Ids(m) - I.SetOf(xs)
  {
    r := m;
    assert Ids(r) == Ids(m) - I.SetOf(xs[..0]);
    hide Ids, Refers, I.SetOf;
    for i := 0 to |xs|
      invariant Refers(r, objects)
      invariant Ids(r) == Ids(m) - I.SetOf(xs[..i])
    {
      Drop(r, {xs[i]}, objects);
      SetOfStep(xs, i);
      r := r - {xs[i]};
      assert Ids(m) - I.SetOf(xs[..i]) - {xs[i]} == Ids(m) - (I.SetOf(xs[..i]) + {xs[i]});
    }
    assert xs[..|xs|] == xs;
  }

  /** Deletes every key of `xs` that leads to the track. */
  method ReleaseEach(m: map<string, Track>, xs: seq<string>, t: Track, ghost objects: map<Id, Track>)
    returns (r: map<string, Track>)
    requires Refers(m, objects) && Member(t, objects)
    ensures Refers(r, objects) && Ids(r) == I.Release(Ids(m), I.SetOf(xs), t.id)
  {
    r := m;
    assert Ids(r) == I.Release(Ids(m), I.SetOf(xs[..0]), t.id);
    hide Ids, Refers, Member, I.SetOf, I.Release;
    for i := 0 to |xs|
      invariant Refers(r, objects)
      invariant Ids(r) == I.Release(Ids(m), I.SetOf(xs[..i]), t.id)
    {
      Drop(r, {xs[i]}, objects);
      SetOfStep(xs, i);
      ReleaseStep(Ids(m), I.SetOf(xs[..i]), xs[i], t.id);
      if xs[i] in r {
        At(r, xs[i], objects);
        SameTrack(r[xs[i]], t, objects);
      }
      if xs[i] in r && r[xs[i]] == t {
        r := r - {xs[i]};
      }
    }
    assert xs[..|xs|] == xs;
  }

  /** What the tracks hold, by ID. */
  ghost function Values(objects: map<Id, Track>): (m: map<Id, R.Track>)
    reads objects.Values
    ensures m.Keys == objects.Keys
  {
    map id | id in objects :: objects[id].Value()
  }

  lemma ValueOf(objects: map<Id, Track>, t: Track)
    requires Member(t, objects)
    ensures Values(objects)[t.id] == t.Value()
  {}

  lemma PutOwn(m: map<Id, Track>, t: Track)
    requires OwnIds(m)
    ensures OwnIds(m[t.id := t])
  {}

  /** Changing one object changes one value. */
  lemma OneChanged(objects: map<Id, Track>, before: map<Id, R.Track>, t: Track)
    requires Member(t, objects) && before.Keys == objects.Keys
    requires forall id :: id in objects && id != t.id ==> objects[id].Value() == before[id]
    ensures Values(objects) == before[t.id := t.Value()]
  {}

  // One field of one track, seen as a change of one value.

  method SetSerial(t: Track, serial: string, ghost objects: map<Id, Track>)
    requires OwnIds(objects) && Member(t, objects)
    modifies t`serial
    ensures Values(objects) == old(Values(objects))[t.id := old(t.Value()).(serial := serial)]
  {
    ghost var before := Values(objects);
    t.serial := serial;
    OneChanged(objects, before, t);
  }

  method SetState(t: Track, state: R.State, ghost objects: map<Id, Track>)
    requires OwnIds(objects) && Member(t, objects)
    modifies t`state
    ensures Values(objects) == old(Values(objects))[t.id := old(t.Value()).(state := state)]
  {
    ghost var before := Values(objects);
    t.state := state;
    OneChanged(objects, before, t);
  }

  method AddMac(t: Track, mac: string, ghost objects: map<Id, Track>)
    requires OwnIds(objects) && Member(t, objects)
    modifies t`macs
    ensures Values(objects) == old(Values(objects))[t.id := old(t.Value()).(macs := I.WithMac(old(t.macs), mac))]
  {
    ghost var before := Values(objects);
    if mac !in t.macs {
      t.macs := t.macs + [mac];
    }
    OneChanged(objects, before, t);
  }

  /** Measuring and advancing one track, as Ingest's second half does. */
  method Record(t: Track, cfg: Config, d: Detection, now: int, ground: Option<Ground>, ghost objects: map<Id, Track>)
    requires OwnIds(objects) && Member(t, objects)
    modifies t
    ensures Values(objects) == old(Values(objects))[t.id := I.Folded(cfg, old(t.Value()), d, now, ground)]
  {
    hide R.Fold, R.NextState;
    ghost var before := Values(objects);
    t.Fold(cfg, d, now, ground);
    t.UpdateState(now, cfg.lifecycle);
    OneChanged(objects, before, t);
  }

  method Advance(t: Track, now: int, lc: Lifecycle, ghost objects: map<Id, Track>)
    requires OwnIds(objects) && Member(t, objects)
    modifies t`state
    ensures t.Value() == R.UpdateState(old(t.Value()), now, lc)
    ensures Values(objects) == old(Values(objects))[t.id := R.UpdateState(old(t.Value()), now, lc)]
  {
    hide R.NextState;
    ghost var before := Values(objects);
    t.UpdateState(now, lc);
    OneChanged(objects, before, t);
  }

  lemma OneAdded(objects: map<Id, Track>, t: Track)
    requires t.id !in objects
    ensures Values(objects[t.id := t]) == Values(objects)[t.id := t.Value()]
  {}

  lemma Grown(m: map<string, Track>, objects: map<Id, Track>, t: Track)
    requires t.id !in objects && Refers(m, objects)
    ensures Refers(m, objects[t.id := t])
  {}

  class TrackStore {
    const cfg: Config
    var bySerial: map<string, Track>
    var byMac: map<string, Track>
    var all: map<Id, Track>
    var closedBySerial: map<string, Track>
    var closedByMac: map<string, Track>
    /** Every track this store ever made. */
    ghost var objects: map<Id, Track>

    /** The maps hold this store's own tracks, each under its own ID. */
    ghost predicate Linked()
      reads this
    {
      && OwnIds(objects)
      && OwnIds(all)
      && Refers(all, objects)
      && Refers(bySerial, objects)
      && Refers(byMac, objects)
      && Refers(closedBySerial, objects)
      && Refers(closedByMac, objects)
    }

    /** The store as a value. */
    ghost function Abs(): (s: I.Store)
      requires Linked()
      reads this, objects.Values
      ensures I.WellFormed(s)
    {
      I.Store(Values(objects), all.Keys, Ids(bySerial), Ids(byMac), Ids(closedBySerial), Ids(closedByMac))
    }

    ghost predicate Valid()
      reads this, objects.Values
    {
      Linked() && S.Sound(Abs())
    }

    ghost function IdOf(t: Track?): Option<Id> {
      if t == null then None else Some(t.id)
    }

    constructor (cfg: Config)
      ensures Valid() && Abs() == I.EMPTY && this.cfg == cfg
    {
      this.cfg := cfg;
      bySerial, byMac, all, closedBySerial, closedByMac, objects := map[], map[], map[], map[], map[], map[];
    }

    method Promote(t: Track, serial: string)
      requires Linked() && Member(t, objects)
      modifies this`bySerial, t`serial
      ensures Linked() && Abs() == I.Promote(old(Abs()), t.id, serial)
    {
      hide Refers, OwnIds, Ids, Values, I.WellFormed;
      ValueOf(objects, t);
      SetSerial(t, serial, objects);
      Put(bySerial, serial, t, objects);
      bySerial := bySerial[serial := t];
    }

    method Resolve(serial: string, mac: string) returns (t: Track?)
      requires Linked()
      modifies this`bySerial, this`byMac, objects.Values
      ensures Linked() && (t != null ==> Member(t, objects))
      ensures Abs() == I.Resolve(old(Abs()), serial, mac).0 && IdOf(t) == I.Resolve(old(Abs()), serial, mac).1
    {
      hide Refers, OwnIds, Ids, Values, I.WellFormed;
      if mac in byMac {
        At(byMac, mac, objects);
        ValueOf(objects, byMac[mac]);
      }
      if serial != "" && serial in bySerial {
        At(bySerial, serial, objects);
        t := bySerial[serial];
        if mac != "" {
          Put(byMac, mac, t, objects);
          byMac := byMac[mac := t];
        }
      } else if serial != "" && mac != "" && mac in byMac && byMac[mac].serial == "" {
        t := byMac[mac];
        Promote(t, serial);
      } else if mac != "" && mac in byMac {
        t := byMac[mac];
      } else {
        t := null;
      }
    }

    method Unindex(t: Track)
      requires Linked() && Member(t, objects)
      modifies this`bySerial, this`byMac
      ensures Linked() && Abs() == I.Unindex(old(Abs()), t.id)
    {
      hide Refers, OwnIds, Ids, Values, I.WellFormed, I.SetOf;
      ValueOf(objects, t);
      Drop(bySerial, {t.serial}, objects);
      if t.serial != "" {
        bySerial := bySerial - {t.serial};
      }
      byMac := DropEach(byMac, t.macs, objects);
    }

    method ResolveClosed(serial: string, mac: string) returns (t: Track?)
      requires Linked()
      ensures (t != null ==> Member(t, objects)) && IdOf(t) == I.ResolveClosed(Abs(), serial, mac)
    {
      hide Refers, OwnIds, Ids, Values, I.WellFormed;
      if serial != "" && serial in closedBySerial {
        At(closedBySerial, serial, objects);
        return closedBySerial[serial];
      }
      if mac != "" && mac in closedByMac {
        At(closedByMac, mac, objects);
        return closedByMac[mac];
      }
      return null;
    }

    method Remember(t: Track)
      requires Linked() && Member(t, objects)
      modifies this`closedBySerial, this`closedByMac
      ensures Linked() && Abs() == I.Remember(old(Abs()), t.id)
    {
      hide Refers, OwnIds, Ids, Values, I.WellFormed, I.BindAll;
      ValueOf(objects, t);
      if |t.history| == 0 {
        return;
      }
      if t.serial != "" {
        Put(closedBySerial, t.serial, t, objects);
        closedBySerial := closedBySerial[t.serial := t];
      }
      closedByMac := BindEach(closedByMac, t.macs, t, objects);
    }

    method Forget(t: Track)
      requires Linked() && Member(t, objects)
      modifies this`closedBySerial, this`closedByMac
      ensures Linked() && Abs() == I.Forget(old(Abs()), t.id)
    {
      hide Refers, OwnIds, Ids, Values, I.WellFormed, I.Release;
      ValueOf(objects, t);
      closedBySerial := ReleaseEach(closedBySerial, if t.serial == "" then [] else [t.serial], t, objects);
      assert I.SetOf([t.serial]) == {t.serial} && I.SetOf([]) == {};
      closedByMac := ReleaseEach(closedByMac, t.macs, t, objects);
    }

    method IndexSerial(t: Track)
      requires Linked() && Member(t, objects)
      modifies this`bySerial
      ensures Linked()
      ensures Ids(bySerial) == if t.serial != "" then old(Ids(bySerial))[t.serial := t.id] else old(Ids(bySerial))
    {
      hide Refers, OwnIds, Ids, Member;
      if t.serial != "" {
        Put(bySerial, t.serial, t, objects);
        bySerial := bySerial[t.serial := t];
      }
    }

    method Index(t: Track)
      requires Linked() && Member(t, objects)
      modifies this`bySerial, this`byMac
      ensures Linked()
      ensures Ids(bySerial) == if t.serial != "" then old(Ids(bySerial))[t.serial := t.id] else old(Ids(bySerial))
      ensures Ids(byMac) == I.BindAll(old(Ids(byMac)), t.macs, t.id)
    {
      hide Refers, OwnIds, Ids, Member, I.BindAll;
      IndexSerial(t);
      byMac := BindEach(byMac, t.macs, t, objects);
    }

    method MarkLive(t: Track)
      requires Linked() && Member(t, objects)
      modifies this`all, t`state
      ensures Linked() && all.Keys == old(all.Keys) + {t.id}
      ensures Values(objects) == old(Values(objects))[t.id := old(t.Value()).(state := R.Coasting)]
    {
      hide Refers, OwnIds, Ids, Values;
      SetState(t, R.Coasting, objects);
      Put(all, t.id, t, objects);
      PutOwn(all, t);
      all := all[t.id := t];
    }

    method Enlive(t: Track)
      requires Linked() && Member(t, objects)
      modifies this`bySerial, this`byMac, this`all, t`state
      ensures Linked() && Abs() == I.Enlive(old(Abs()), t.id)
    {
      hide Linked, Ids, Values, Member, I.WellFormed, I.BindAll;
      ValueOf(objects, t);
      MarkLive(t);
      Index(t);
    }

    /** A closed flight rejoins the live tracks. */
    method Reopen(t: Track)
      requires Linked() && Member(t, objects)
      modifies this`closedBySerial, this`closedByMac, this`bySerial, this`byMac, this`all, t`state
      ensures Linked() && Abs() == I.Reopen(old(Abs()), t.id)
    {
      hide I.Forget, I.Enlive, Linked;
      Forget(t);
      Enlive(t);
    }

    method Register(t: Track)
      requires Linked() && t.id !in objects
      modifies this`all, this`objects
      ensures Linked() && objects == old(objects)[t.id := t] && all.Keys == old(all.Keys) + {t.id}
      ensures Values(objects) == old(Values(objects))[t.id := t.Value()]
    {
      hide Refers, OwnIds, Ids, Values;
      OneAdded(objects, t);
      Grown(bySerial, objects, t);
      Grown(byMac, objects, t);
      Grown(all, objects, t);
      Grown(closedBySerial, objects, t);
      Grown(closedByMac, objects, t);
      PutOwn(objects, t);
      objects := objects[t.id := t];
      Put(all, t.id, t, objects);
      PutOwn(all, t);
      all := all[t.id := t];
    }

    /** A new track, under the ID the generator returned. */
    method Mint(d: Detection, seen: int, newId: Id) returns (t: Track)
      requires Linked() && newId !in objects
      modifies this`all, this`bySerial, this`objects
      ensures Linked() && objects == old(objects)[newId := t] && fresh(t) && t.id == newId
      ensures Abs() == I.Mint(old(Abs()), d, seen, newId)
    {
      hide Linked, Ids, Values, I.WellFormed;
      t := new Track(newId, d, seen);
      Register(t);
      IndexSerial(t);
    }

    method BindMac(t: Track, mac: string)
      requires Linked() && Member(t, objects)
      modifies this`byMac, t`macs
      ensures Linked() && Abs() == I.BindMac(old(Abs()), t.id, mac)
    {
      hide Refers, OwnIds, Ids, Values, I.WellFormed, I.WithMac;
      ValueOf(objects, t);
      if mac != "" {
        Put(byMac, mac, t, objects);
        byMac := byMac[mac := t];
        AddMac(t, mac, objects);
      }
    }

    method Claim(t: Track, d: Detection)
      requires Linked() && Member(t, objects)
      modifies this`byMac, this`bySerial, t`macs, t`serial
      ensures Linked() && Abs() == I.Claim(old(Abs()), t.id, d)
    {
      hide Refers, OwnIds, Ids, Values, I.WellFormed, I.BindMac, I.Promote;
      BindMac(t, d.mac);
      ValueOf(objects, t);
      if d.serial != "" && t.serial == "" {
        Promote(t, d.serial);
      }
    }

    /** The live track a detection belongs to; a flight that is over is unindexed instead. */
    method Live(d: Detection, seen: int) returns (t: Track?)
      requires Linked()
      modifies this`bySerial, this`byMac, objects.Values
      ensures Linked() && (t != null ==> Member(t, objects))
      ensures Abs() == I.Live(cfg, old(Abs()), d, seen).0 && IdOf(t) == I.Live(cfg, old(Abs()), d, seen).1
    {
      hide Refers, OwnIds, Ids, Values, I.WellFormed, I.Resolve, I.Unindex, I.Resumes, I.FlightIsOver;
      t := Resolve(d.serial, d.mac);
      if t != null {
        ValueOf(objects, t);
        if I.FlightIsOver(cfg.lifecycle, t.Value(), seen) && !I.Resumes(cfg, t.Value(), d, seen) {
          Unindex(t);
          t := null;
        }
      }
    }

    method Revive(d: Detection, seen: int) returns (t: Track?)
      requires Linked()
      modifies this`closedBySerial, this`closedByMac, this`bySerial, this`byMac, this`all, objects.Values
      ensures Linked() && (t != null ==> Member(t, objects))
      ensures Abs() == I.Revive(cfg, old(Abs()), d, seen).0 && IdOf(t) == I.Revive(cfg, old(Abs()), d, seen).1
    {
      hide Refers, OwnIds, Ids, Values, I.WellFormed, I.ResolveClosed, I.Reopen, I.Resumes;
      t := ResolveClosed(d.serial, d.mac);
      if t != null {
        ValueOf(objects, t);
        if I.Resumes(cfg, t.Value(), d, seen) {
          Reopen(t);
        } else {
          t := null;
        }
      }
    }

    method Attribute(d: Detection, now: int, newId: Id) returns (t: Track?)
      requires Linked() && newId !in objects
      modifies this, objects.Values
      ensures Linked() && (t != null ==> Member(t, objects))
      ensures objects == old(objects) || (t != null && fresh(t) && objects == old(objects)[newId := t])
      ensures Abs() == I.Attribute(cfg, old(Abs()), d, now, newId).0
      ensures IdOf(t) == I.Attribute(cfg, old(Abs()), d, now, newId).1
    {
      hide Refers, OwnIds, Ids, Values, I.WellFormed, I.Live, I.Revive, I.Mint, I.Claim;
      var seen := R.Seen(d, now);
      t := Live(d, seen);
      if t == null {
        t := Revive(d, seen);
      }
      if t == null && (d.serial != "" || d.mac != "") {
        t := Mint(d, seen, newId);
      }
      if t != null {
        Claim(t, d);
      }
    }

    /** Folds a detection into the track it belongs to, making one if needed; null when it must not become a track. */
    method Ingest(d: Detection, now: int, newId: Id, ground: Option<Ground>) returns (t: Track?)
      requires Valid() && newId !in objects
      modifies this, objects.Values
      ensures Valid() && (t != null ==> Member(t, objects))
      ensures objects == old(objects) || (t != null && fresh(t) && objects == old(objects)[newId := t])
      ensures Abs() == I.Ingest(cfg, old(Abs()), d, now, newId, ground).0
      ensures IdOf(t) == I.Ingest(cfg, old(Abs()), d, now, newId, ground).1
    {
      hide Refers, OwnIds, Ids, Values, S.Sound, I.WellFormed, I.Attribute, I.Folded;
      S.IngestKeepsSound(cfg, Abs(), d, now, newId, ground);
      if d.class_ == CLASS_ADSB {
        t := null;
      } else {
        t := Attribute(d, now, newId);
        if t != null {
          ValueOf(objects, t);
          Record(t, cfg, d, now, ground, objects);
        }
      }
    }

    method Retire(t: Track)
      requires Linked() && Member(t, objects)
      modifies this`all, this`bySerial, this`byMac
      ensures Linked() && Abs() == I.Unindex(old(Abs()), t.id).(all := old(all.Keys) - {t.id})
    {
      hide Refers, OwnIds, Ids, Values, I.WellFormed, I.Unindex;
      Unindex(t);
      Drop(all, {t.id}, objects);
      DropOwn(all, t.id);
      all := all - {t.id};
    }

    /** One turn of Reap's first loop. */
    method ReapOne(t: Track, now: int) returns (changed: bool)
      requires Linked() && Member(t, objects)
      modifies this`all, this`bySerial, this`byMac, this`closedBySerial, this`closedByMac, t`state
      ensures Linked() && Abs() == I.ReapOne(cfg, old(Abs()), now, t.id)
      ensures changed == (R.UpdateState(old(t.Value()), now, cfg.lifecycle).state != old(t.state))
    {
      hide Refers, OwnIds, Ids, Values, Member, I.WellFormed, I.Unindex, I.Remember, R.UpdateState;
      ValueOf(objects, t);
      var prev := t.state;
      Advance(t, now, cfg.lifecycle, objects);
      ValueOf(objects, t);
      changed := t.state != prev;
      if t.state.Closed? {
        Retire(t);
        if prev.Coasting? || prev.Confirmed? {
          Remember(t);
        }
      }
    }

    lemma LiveIds()
      requires Linked()
      ensures forall id :: id in all ==> all[id].id == id
    {}

    lemma LiveAt(id: Id)
      requires Linked() && id in all
      ensures Member(all[id], objects) && all[id].id == id && id in objects
      ensures Abs().tracks[id] == all[id].Value()
    {}

    method ReapTurn(id: Id, now: int, ghost s0: I.Store, ghost order: seq<Id>, ghost pending: set<Id>, ghost ids: seq<Id>)
      returns (changed: bool)
      requires Linked() && id in pending && id in all && Midway(cfg, s0, Abs(), now, order, pending, ids)
      modifies this`all, this`bySerial, this`byMac, this`closedBySerial, this`closedByMac, objects.Values
      ensures Linked() && pending - {id} <= all.Keys
      ensures Midway(cfg, s0, Abs(), now, order + [id], pending - {id}, if changed then ids + [id] else ids)
    {
      hide Linked, Member, Ids, Values, S.Sound, I.WellFormed, I.ReapOne, R.UpdateState, Midway;
      LiveAt(id);
      MidwayStep(cfg, s0, Abs(), now, order, pending, ids, id);
      assert ids + [] == ids;
      changed := ReapOne(all[id], now);
    }

    /** Reap's first loop, over the live tracks in whatever order the map yields them. */
    method ReapAll(now: int) returns (changed: seq<Track>, ghost order: seq<Id>)
      requires Valid()
      modifies this`all, this`bySerial, this`byMac, this`closedBySerial, this`closedByMac, objects.Values
      ensures Valid() && I.Lists(order, old(all.Keys))
      ensures Abs() == I.ReapAll(cfg, old(Abs()), now, order)
      ensures TrackIds(changed) == I.Changed(cfg, old(Abs()), now, order)
    {
      hide Linked, Member, Ids, Values, S.Sound, I.WellFormed, I.Lists, I.ReapAll, I.ReapOne, I.Changed, R.UpdateState, Midway, TrackIds;
      ghost var s0 := Abs();
      var pending, all0 := all.Keys, all;
      changed, order := [], [];
      LiveIds();
      NoTrackIds();
      MidwayStart(cfg, s0, now);
      while pending != {}
        invariant Linked() && Midway(cfg, s0, Abs(), now, order, pending, TrackIds(changed))
        invariant pending <= all.Keys && pending <= all0.Keys
        decreases |pending|
      {
        var id :| id in pending;
        var b := ReapTurn(id, now, s0, order, pending, TrackIds(changed));
        if b {
          TrackIdsSnoc(changed, all0[id]);
          changed := changed + [all0[id]];
        }
        order, pending := order + [id], pending - {id};
      }
      MidwayEnd(cfg, s0, Abs(), now, order, TrackIds(changed));
    }

    method ForgetExpired(t: Track, now: int)
      requires Linked() && Member(t, objects)
      modifies this`closedBySerial, this`closedByMac
      ensures Linked() && Abs() == LessExpired(cfg, old(Abs()), t.id, now)
    {
      hide Refers, OwnIds, Ids, Values, I.WellFormed, I.Forget;
      ValueOf(objects, t);
      if now - t.lastSeen > cfg.lifecycle.resumeWithin {
        Forget(t);
      }
    }

    /** Reap's last two loops: forgets every closed flight past ResumeWithin. */
    method ExpireAll(now: int)
      requires Valid()
      modifies this`closedBySerial, this`closedByMac
      ensures Valid() && Abs() == I.Expire(cfg, old(Abs()), now)
    {
      hide Refers, OwnIds, Ids, Values, S.Sound, I.WellFormed, I.Expire, LessExpired, Trimmed, NoneExpired;
      ghost var s0 := Abs();
      TrimmedStart(cfg, s0, now);
      var pending := closedBySerial.Keys;
      while pending != {}
        invariant Linked() && Trimmed(cfg, s0, Abs(), now)
        invariant NoneExpired(cfg, Abs(), Abs().closedBySerial, now, pending)
        decreases |pending|
      {
        var k :| k in pending;
        SerialStep(cfg, s0, Abs(), now, pending, k);
        pending := pending - {k};
        if k in closedBySerial {
          At(closedBySerial, k, objects);
          ForgetExpired(closedBySerial[k], now);
        }
      }
      pending := closedByMac.Keys;
      MacStart(cfg, Abs(), now);
      while pending != {}
        invariant Linked() && Trimmed(cfg, s0, Abs(), now)
        invariant NoneExpired(cfg, Abs(), Abs().closedBySerial, now, {})
        invariant NoneExpired(cfg, Abs(), Abs().closedByMac, now, pending)
        decreases |pending|
      {
        var k :| k in pending;
        MacStep(cfg, s0, Abs(), now, pending, k);
        pending := pending - {k};
        if k in closedByMac {
          At(closedByMac, k, objects);
          ForgetExpired(closedByMac[k], now);
        }
      }
      TrimmedEnd(cfg, s0, Abs(), now);
    }

    /** Advances the lifecycle of the tracks that stopped being seen, and removes the closed ones. */
    method Reap(now: int) returns (changed: seq<Track>, ghost order: seq<Id>)
      requires Valid()
      modifies this, objects.Values
      ensures Valid() && I.Lists(order, old(all.Keys)) && objects == old(objects)
      ensures Abs() == I.Reap(cfg, old(Abs()), now, order)
      ensures TrackIds(changed) == I.Changed(cfg, old(Abs()), now, order)
    {
      hide S.Sound, I.ReapAll, I.Expire, I.WellFormed, I.Lists, Values, Ids;
      changed, order := ReapAll(now);
      ExpireAll(now);
    }
  }

  /** No entry of the map outside `pending` leads to an expired flight. */
  ghost predicate NoneExpired(cfg: Config, s: I.Store, m: map<string, Id>, now: int, pending: set<string>) {
    forall k :: k in m && k !in pending ==> m[k] in s.tracks && !I.Expired(cfg, s.tracks[m[k]], now)
  }

  /** `m` is `m0` less some expired entries. */
  ghost predicate TrimmedMap(cfg: Config, s0: I.Store, m0: map<string, Id>, m: map<string, Id>, now: int) {
    && (forall k :: k in m ==> k in m0 && m[k] == m0[k])
    && (forall k :: k in m0 && k !in m ==> m0[k] in s0.tracks && I.Expired(cfg, s0.tracks[m0[k]], now))
  }

  ghost predicate Trimmed(cfg: Config, s0: I.Store, s: I.Store, now: int): (b: bool)
    ensures b ==> I.WellFormed(s)
  {
    && S.Sound(s)
    && s == s0.(closedBySerial := s.closedBySerial, closedByMac := s.closedByMac)
    && TrimmedMap(cfg, s0, s0.closedBySerial, s.closedBySerial, now)
    && TrimmedMap(cfg, s0, s0.closedByMac, s.closedByMac, now)
  }

  ghost function LessExpired(cfg: Config, s: I.Store, id: Id, now: int): (r: I.Store)
    requires I.WellFormed(s) && id in s.tracks
    ensures I.WellFormed(r)
  {
    if I.Expired(cfg, s.tracks[id], now) then I.Forget(s, id) else s
  }

  lemma TrimmedStart(cfg: Config, s: I.Store, now: int)
    requires S.Sound(s)
    ensures Trimmed(cfg, s, s, now) && NoneExpired(cfg, s, s.closedBySerial, now, s.closedBySerial.Keys)
  {}

  lemma MacStart(cfg: Config, s: I.Store, now: int)
    ensures NoneExpired(cfg, s, s.closedByMac, now, s.closedByMac.Keys)
  {}

  ghost predicate Within(m: map<string, Id>, m0: map<string, Id>) {
    forall k :: k in m ==> k in m0 && m[k] == m0[k]
  }

  lemma ReleaseTrims(cfg: Config, s0: I.Store, m0: map<string, Id>, m: map<string, Id>, keys: set<string>, id: Id, now: int)
    requires TrimmedMap(cfg, s0, m0, m, now) && id in s0.tracks && I.Expired(cfg, s0.tracks[id], now)
    ensures TrimmedMap(cfg, s0, m0, I.Release(m, keys, id), now) && Within(I.Release(m, keys, id), m)
  {
    hide I.Expired;
  }

  lemma TrimStep(cfg: Config, s0: I.Store, s: I.Store, now: int, id: Id)
    requires Trimmed(cfg, s0, s, now) && id in s.tracks
    ensures var r := LessExpired(cfg, s, id, now);
      && Trimmed(cfg, s0, r, now)
      && (I.Expired(cfg, s.tracks[id], now) ==> S.Unparked(r, id))
      && r.tracks == s.tracks
      && Within(r.closedBySerial, s.closedBySerial)
      && Within(r.closedByMac, s.closedByMac)
  {
    hide S.SoundBut, TrimmedMap, I.Expired, I.Release;
    S.ForgetKeeps(s, id, "");
    if I.Expired(cfg, s.tracks[id], now) {
      ReleaseTrims(cfg, s0, s0.closedBySerial, s.closedBySerial, I.SerialKey(s.tracks[id]), id, now);
      ReleaseTrims(cfg, s0, s0.closedByMac, s.closedByMac, I.SetOf(s.tracks[id].macs), id, now);
    }
  }

  lemma SerialStep(cfg: Config, s0: I.Store, s: I.Store, now: int, pending: set<string>, k: string)
    requires Trimmed(cfg, s0, s, now) && NoneExpired(cfg, s, s.closedBySerial, now, pending)
    ensures k !in s.closedBySerial ==> NoneExpired(cfg, s, s.closedBySerial, now, pending - {k})
    ensures k in s.closedBySerial ==>
      && s.closedBySerial[k] in s.tracks
      && var r := LessExpired(cfg, s, s.closedBySerial[k], now);
         Trimmed(cfg, s0, r, now) && NoneExpired(cfg, r, r.closedBySerial, now, pending - {k})
  {
    if k in s.closedBySerial {
      assert s.closedBySerial[k] in s.tracks;
      TrimStep(cfg, s0, s, now, s.closedBySerial[k]);
      hide Trimmed, LessExpired, I.Expired;
    }
  }

  lemma MacStep(cfg: Config, s0: I.Store, s: I.Store, now: int, pending: set<string>, k: string)
    requires Trimmed(cfg, s0, s, now) && NoneExpired(cfg, s, s.closedByMac, now, pending)
    requires NoneExpired(cfg, s, s.closedBySerial, now, {})
    ensures k !in s.closedByMac ==> NoneExpired(cfg, s, s.closedByMac, now, pending - {k})
    ensures k in s.closedByMac ==>
      && s.closedByMac[k] in s.tracks
      && var r := LessExpired(cfg, s, s.closedByMac[k], now);
         && Trimmed(cfg, s0, r, now)
         && NoneExpired(cfg, r, r.closedBySerial, now, {})
         && NoneExpired(cfg, r, r.closedByMac, now, pending - {k})
  {
    if k in s.closedByMac {
      assert s.closedByMac[k] in s.tracks;
      TrimStep(cfg, s0, s, now, s.closedByMac[k]);
      hide Trimmed, LessExpired, I.Expired;
    }
  }

  lemma TrimmedEnd(cfg: Config, s0: I.Store, s: I.Store, now: int)
    requires S.Sound(s0) && Trimmed(cfg, s0, s, now)
    requires NoneExpired(cfg, s, s.closedBySerial, now, {}) && NoneExpired(cfg, s, s.closedByMac, now, {})
    ensures s == I.Expire(cfg, s0, now) && S.Sound(s)
  {
    hide I.Expired;
    var e := I.Expire(cfg, s0, now);
    assert s.closedBySerial == e.closedBySerial;
    assert s.closedByMac == e.closedByMac;
  }

  /** Part-way through Reap's first loop, with `pending` still to come and `changed` to be reported. */
  ghost predicate Midway(cfg: Config, s0: I.Store, s: I.Store, now: int, order: seq<Id>, pending: set<Id>, changed: seq<Id>) {
    && S.Sound(s0)
    && pending <= s0.all && pending <= s.all
    && I.Lists(order, s0.all - pending)
    && s == I.ReapAll(cfg, s0, now, order)
    && changed == I.Changed(cfg, s0, now, order)
  }

  lemma MidwayStart(cfg: Config, s: I.Store, now: int)
    requires S.Sound(s)
    ensures Midway(cfg, s, s, now, [], s.all, [])
  {}

  lemma AllExist(s: I.Store)
    requires I.WellFormed(s)
    ensures s.all <= s.tracks.Keys
  {}

  /** A track still to come is as Reap found it, and one turn leaves the other pending ones live. */
  lemma PendingUntouched(cfg: Config, s0: I.Store, s: I.Store, now: int, order: seq<Id>, pending: set<Id>, changed: seq<Id>, id: Id)
    requires Midway(cfg, s0, s, now, order, pending, changed) && id in pending && id in s.tracks && I.WellFormed(s)
    ensures id in s0.tracks && s.tracks[id] == s0.tracks[id] && id !in order
    ensures forall x :: x in order ==> x in s0.tracks
    ensures pending - {id} <= I.ReapOne(cfg, s, now, id).all
  {
    hide S.Sound, I.WellFormed, I.ReapOne, R.UpdateState, I.Changed;
    AllExist(s0);
    assert forall x :: x in order ==> x in s0.all;
    assert id in s0.all && id !in order;
    S.ReapAllKeeps(cfg, s0, now, order);
    S.ReapOneEffect(cfg, s, now, id);
  }

  lemma ListsMore(order: seq<Id>, ids: set<Id>, id: Id)
    requires I.Lists(order, ids) && id !in order
    ensures I.Lists(order + [id], ids + {id})
  {}

  lemma OneMoreTurn(cfg: Config, s: I.Store, now: int, order: seq<Id>, id: Id)
    requires I.WellFormed(s) && id in s.tracks && forall x :: x in order ==> x in s.tracks
    ensures I.ReapAll(cfg, s, now, order + [id]) == I.ReapOne(cfg, I.ReapAll(cfg, s, now, order), now, id)
    ensures I.Changed(cfg, s, now, order + [id]) == I.Changed(cfg, s, now, order)
            + if R.UpdateState(s.tracks[id], now, cfg.lifecycle).state != s.tracks[id].state then [id] else []
  {
    hide I.WellFormed, I.ReapOne, R.UpdateState;
    assert (order + [id])[..|order|] == order;
  }

  lemma MidwayStep(cfg: Config, s0: I.Store, s: I.Store, now: int, order: seq<Id>, pending: set<Id>, changed: seq<Id>, id: Id)
    requires Midway(cfg, s0, s, now, order, pending, changed) && id in pending && id in s.tracks && I.WellFormed(s)
    ensures var t := s.tracks[id];
      Midway(cfg, s0, I.ReapOne(cfg, s, now, id), now, order + [id], pending - {id},
             changed + if R.UpdateState(t, now, cfg.lifecycle).state != t.state then [id] else [])
    ensures pending - {id} <= I.ReapOne(cfg, s, now, id).all
  {
    hide S.Sound, I.WellFormed, I.ReapOne, I.ReapAll, I.Changed, R.UpdateState, I.Lists;
    PendingUntouched(cfg, s0, s, now, order, pending, changed, id);
    OneMoreTurn(cfg, s0, now, order, id);
    ListsMore(order, s0.all - pending, id);
    assert s0.all - pending + {id} == s0.all - (pending - {id});
  }

  lemma MidwayEnd(cfg: Config, s0: I.Store, s: I.Store, now: int, order: seq<Id>, changed: seq<Id>)
    requires Midway(cfg, s0, s, now, order, {}, changed)
    ensures S.Sound(s) && I.Lists(order, s0.all)
    ensures s == I.ReapAll(cfg, s0, now, order) && changed == I.Changed(cfg, s0, now, order)
  {
    assert s0.all - {} == s0.all;
    S.ReapAllKeeps(cfg, s0, now, order);
  }

  lemma NoTrackIds()
    ensures TrackIds([]) == []
  {}

  lemma TrackIdsSnoc(ts: seq<Track>, t: Track)
    ensures TrackIds(ts + [t]) == TrackIds(ts) + [t.id]
  {
    assert (ts + [t])[..|ts|] == ts;
  }

  ghost function TrackIds(ts: seq<Track>): seq<Id> {
    if ts == [] then [] else TrackIds(ts[..|ts| - 1]) + [ts[|ts| - 1].id]
  }

  lemma DropOwn(m: map<Id, Track>, id: Id)
    requires OwnIds(m)
    ensures OwnIds(m - {id})
  {}

  lemma TimesAssociates(x: real, y: real, z: real)
    ensures R.Times(x, R.Times(y, z)) == R.Times(R.Times(x, y), z)
  {}
}
