/**
 Whole runs of the track store: detections and Reap ticks in any order, with the clock and the
 list of detections folded into each track recorded on the side.
 */
module TrackRuns {
  import opened Options
  import opened Detections
  import opened TrackRecords
  import opened TrackIndex
  import opened TrackSoundness

  datatype Entry = Entry(d: Detection, now: int, ground: Option<Ground>)

  /** `log` lists what was folded into each track; `clock` is the largest `now` ingested. */
  datatype World = World(store: Store, log: map<Id, seq<Entry>>, clock: int)

  const START := World(EMPTY, map[], 0)

  datatype Step =
    | Detect(entry: Entry, newId: Id)
    | Tick(now: int, order: seq<Id>)

  /** A minted ID is fresh, and a tick visits each live track once, in any order. */
  ghost predicate Enabled(w: World, step: Step) {
    && WellFormed(w.store)
    && match step
       case Detect(_, newId) => newId !in w.store.tracks
       case Tick(_, order) => Lists(order, w.store.all)
  }

  function Logged(log: map<Id, seq<Entry>>, id: Id): seq<Entry> {
    if id in log then log[id] else []
  }

  ghost function Attributed(cfg: Config, w: World, step: Step): Option<Id>
    requires Enabled(w, step) && step.Detect?
  {
    Ingest(cfg, w.store, step.entry.d, step.entry.now, step.newId, step.entry.ground).1
  }

  ghost function Next(cfg: Config, w: World, step: Step): World
    requires Enabled(w, step)
  {
    match step
    case Detect(e, newId) =>
      var (s1, found) := Ingest(cfg, w.store, e.d, e.now, newId, e.ground);
      World(s1,
            if found.Some? then w.log[found.value := Logged(w.log, found.value) + [e]] else w.log,
            Later(w.clock, e.now))
    case Tick(now, order) =>
      w.(store := Reap(cfg, w.store, now, order))
  }

  ghost predicate IsRun(cfg: Config, ws: seq<World>, steps: seq<Step>) {
    && |ws| == |steps| + 1
    && ws[0] == START
    && forall i :: 0 <= i < |steps| ==> Enabled(ws[i], steps[i]) && ws[i + 1] == Next(cfg, ws[i], steps[i])
  }


  // ---- What attribution leaves alone ----

  ghost predicate SameMeasures(s: Store, s1: Store) {
    s1.tracks.Keys == s.tracks.Keys && forall id :: id in s.tracks ==> s1.tracks[id].data == s.tracks[id].data
  }

  /** Only bindings changed: no measurement, no state, and nothing about closed flights. */
  ghost predicate OnlyRebinds(s: Store, s1: Store) {
    && SameMeasures(s, s1)
    && (forall id :: id in s.tracks ==> s1.tracks[id].state == s.tracks[id].state)
    && s1.closedBySerial == s.closedBySerial
    && s1.closedByMac == s.closedByMac
  }

  lemma PromoteRebinds(s: Store, id: Id, serial: string)
    requires WellFormed(s) && id in s.tracks
    ensures OnlyRebinds(s, Promote(s, id, serial))
  {}

  lemma BindMacRebinds(s: Store, id: Id, mac: string)
    requires WellFormed(s) && id in s.tracks
    ensures OnlyRebinds(s, BindMac(s, id, mac))
  {
    hide WellFormed, WithMac;
  }

  lemma ClaimRebinds(s: Store, id: Id, d: Detection)
    requires WellFormed(s) && id in s.tracks
    ensures OnlyRebinds(s, Claim(s, id, d))
  {
    hide BindMac, Promote;
    BindMacRebinds(s, id, d.mac);
    PromoteRebinds(BindMac(s, id, d.mac), id, d.serial);
  }

  lemma ByMacExists(s: Store, mac: string)
    requires WellFormed(s) && mac in s.byMac
    ensures s.byMac[mac] in s.tracks
  {}

  lemma ResolveRebinds(s: Store, serial: string, mac: string)
    requires WellFormed(s)
    ensures OnlyRebinds(s, Resolve(s, serial, mac).0)
  {
    hide WellFormed, Promote;
    if mac in s.byMac {
      ByMacExists(s, mac);
      PromoteRebinds(s, s.byMac[mac], serial);
    }
  }

  lemma LiveRebinds(cfg: Config, s: Store, d: Detection, seen: int)
    requires WellFormed(s)
    ensures OnlyRebinds(s, Live(cfg, s, d, seen).0)
  {
    ResolveRebinds(s, d.serial, d.mac);
    hide Resumes, FlightIsOver, Resolve;
  }

  lemma ReviveMeasures(cfg: Config, s: Store, d: Detection, seen: int)
    requires WellFormed(s)
    ensures SameMeasures(s, Revive(cfg, s, d, seen).0)
  {}

  lemma MintMeasures(s: Store, d: Detection, seen: int, newId: Id)
    requires WellFormed(s) && newId !in s.tracks
    ensures Mint(s, d, seen, newId).tracks == s.tracks[newId := NewTrack(d, seen)]
  {}

  /** Attribution changes no measurement of any track, and adds at most one, empty, track. */
  ghost predicate AttributionEffect(s: Store, s1: Store, r: Option<Id>, d: Detection, seen: int, newId: Id) {
    && (forall id :: id in s.tracks ==> id in s1.tracks && s1.tracks[id].data == s.tracks[id].data)
    && (forall id :: id in s1.tracks ==> id in s.tracks || (id == newId && r == Some(newId)))
    && (r == Some(newId) ==> newId in s1.tracks && s1.tracks[newId].data == NewTrack(d, seen).data)
  }

  lemma SameTwice(s: Store, s1: Store, s2: Store)
    requires SameMeasures(s, s1) && SameMeasures(s1, s2)
    ensures SameMeasures(s, s2)
  {}

  lemma KnownEffect(s: Store, s1: Store, r: Option<Id>, d: Detection, seen: int, newId: Id)
    requires SameMeasures(s, s1) && newId !in s.tracks && (r.Some? ==> r.value in s1.tracks)
    ensures AttributionEffect(s, s1, r, d, seen, newId)
  {
    hide NewTrack;
  }

  lemma MintedEffect(s: Store, s1: Store, s2: Store, d: Detection, seen: int, newId: Id)
    requires SameMeasures(s, s1) && newId !in s1.tracks && WellFormed(s1)
    requires SameMeasures(Mint(s1, d, seen, newId), s2)
    ensures AttributionEffect(s, s2, Some(newId), d, seen, newId)
  {
    MintMeasures(s1, d, seen, newId);
    hide Mint, WellFormed, NewTrack;
  }

  lemma AttributeMeasures(cfg: Config, s: Store, d: Detection, now: int, newId: Id)
    requires WellFormed(s) && newId !in s.tracks
    ensures var (s1, r) := Attribute(cfg, s, d, now, newId);
            AttributionEffect(s, s1, r, d, Seen(d, now), newId)
  {
    hide Live, Revive, Claim, Mint, NewTrack, SameMeasures, WellFormed, AttributionEffect;
    var seen := Seen(d, now);
    LiveRebinds(cfg, s, d, seen);
    var (s1, live) := Live(cfg, s, d, seen);
    ReviveMeasures(cfg, s1, d, seen);
    var (s2, known) := if live.Some? then (s1, live) else Revive(cfg, s1, d, seen);
    if live.None? {
      SameTwice(s, s1, s2);
    }
    if known.Some? {
      ClaimRebinds(s2, known.value, d);
      SameTwice(s, s2, Claim(s2, known.value, d));
      KnownEffect(s, Claim(s2, known.value, d), known, d, seen, newId);
    } else {
      KnownEffect(s, s2, None, d, seen, newId);
      ClaimRebinds(Mint(s2, d, seen, newId), newId, d);
      MintedEffect(s, s2, Claim(Mint(s2, d, seen, newId), newId, d), d, seen, newId);
    }
  }

  // ---- Where one flight ends and the next begins ----

  /** Well away from where the flight took off, or well above it. */
  predicate LeftTakeoff(cfg: Config, takeoff: Position, fix: Fix) {
    || cfg.dist(takeoff.lat, takeoff.lon, fix.lat, fix.lon) >= RESUME_MIN_RANGE_M
    || (takeoff.altGeodeticM.Some? && fix.altGeodeticM.Some?
        && fix.altGeodeticM.value - takeoff.altGeodeticM.value >= RESUME_MIN_CLIMB_M)
  }

  lemma LiveOnlyAirborne(cfg: Config, s: Store, d: Detection, seen: int)
    requires WellFormed(s)
    ensures var (s1, r) := Live(cfg, s, d, seen);
      r.Some? && FlightIsOver(cfg.lifecycle, s.tracks[r.value], seen) ==> Resumes(cfg, s.tracks[r.value], d, seen)
  {
    ResolveRebinds(s, d.serial, d.mac);
    hide Resolve;
  }

  /** Main: a flight that is over, live or remembered, takes up a detection only from an aircraft in the air: within
      ResumeWithin, and with a fix that has left the take-off point. */
  lemma RejoinsOnlyAirborne(cfg: Config, s: Store, d: Detection, now: int, newId: Id)
    requires WellFormed(s) && newId !in s.tracks
    ensures var (s1, r) := Attribute(cfg, s, d, now, newId);
      r.Some? && r.value in s.tracks && FlightIsOver(cfg.lifecycle, s.tracks[r.value], Seen(d, now)) ==>
        var t := s.tracks[r.value];
        && Seen(d, now) - t.data.lastSeen <= cfg.lifecycle.resumeWithin
        && d.position.Some? && t.data.history != []
        && LeftTakeoff(cfg, t.data.history[0], d.position.value)
  {
    var seen := Seen(d, now);
    LiveOnlyAirborne(cfg, s, d, seen);
    LiveRebinds(cfg, s, d, seen);
    hide Live, Reopen, Claim, Mint, FlightIsOver;
    var (s1, live) := Live(cfg, s, d, seen);
    ByClosedExists(s1, d.serial, d.mac);
  }

  lemma ByClosedExists(s: Store, serial: string, mac: string)
    requires WellFormed(s)
    ensures ResolveClosed(s, serial, mac).Some? ==> ResolveClosed(s, serial, mac).value in s.tracks
  {}

  // ---- Corroboration ----

  ghost predicate Shown(t: Track) {
    t.state.Confirmed? || t.state.Coasting?
  }

  ghost predicate ShownConfirmable(lc: Lifecycle, s: Store) {
    forall id :: id in s.tracks && Shown(s.tracks[id]) ==> MayConfirm(s.tracks[id].data, lc)
  }

  ghost predicate ParkedConfirmable(lc: Lifecycle, s: Store)
    requires WellFormed(s)
  {
    && (forall k :: k in s.closedBySerial ==> MayConfirm(s.tracks[s.closedBySerial[k]].data, lc))
    && (forall k :: k in s.closedByMac ==> MayConfirm(s.tracks[s.closedByMac[k]].data, lc))
  }

  /** Every track shown as an aircraft, and every flight remembered as one, has been corroborated. */
  ghost predicate Corroborated(lc: Lifecycle, s: Store): (b: bool)
    ensures b ==> WellFormed(s)
  {
    WellFormed(s) && ShownConfirmable(lc, s) && ParkedConfirmable(lc, s)
  }

  lemma RebindsCorroborated(lc: Lifecycle, s: Store, s1: Store)
    requires Corroborated(lc, s) && WellFormed(s1) && OnlyRebinds(s, s1)
    ensures Corroborated(lc, s1)
  {
    hide MayConfirm;
  }

  lemma ReviveCorroborated(cfg: Config, s: Store, d: Detection, seen: int)
    requires Corroborated(cfg.lifecycle, s)
    ensures Corroborated(cfg.lifecycle, Revive(cfg, s, d, seen).0)
  {
    hide MayConfirm, Resumes, BindAll;
  }

  lemma MintCorroborated(lc: Lifecycle, s: Store, d: Detection, seen: int, newId: Id)
    requires Corroborated(lc, s) && newId !in s.tracks
    ensures Corroborated(lc, Mint(s, d, seen, newId))
  {
    hide MayConfirm;
  }

  lemma AttributeCorroborated(cfg: Config, s: Store, d: Detection, now: int, newId: Id)
    requires Corroborated(cfg.lifecycle, s) && newId !in s.tracks
    ensures Corroborated(cfg.lifecycle, Attribute(cfg, s, d, now, newId).0)
  {
    hide Corroborated, OnlyRebinds, Live, Revive, Mint, Claim;
    var lc, seen := cfg.lifecycle, Seen(d, now);
    LiveRebinds(cfg, s, d, seen);
    var (s1, live) := Live(cfg, s, d, seen);
    RebindsCorroborated(lc, s, s1);
    ReviveCorroborated(cfg, s1, d, seen);
    var (s2, known) := if live.Some? then (s1, live) else Revive(cfg, s1, d, seen);
    if known.None? {
      MintCorroborated(lc, s2, d, seen, newId);
    }
    var s3 := if known.Some? then s2 else Mint(s2, d, seen, newId);
    var id := if known.Some? then known.value else newId;
    ClaimRebinds(s3, id, d);
    RebindsCorroborated(lc, s3, Claim(s3, id, d));
  }

  /** More evidence never takes corroboration away. */
  lemma FoldMonotone(cfg: Config, m: Measures, d: Detection, now: int, ground: Option<Ground>, lc: Lifecycle)
    ensures MayConfirm(m, lc) ==> MayConfirm(Fold(cfg, m, d, now, ground), lc)
  {
    if c :| c in m.evidence && c !in CORROBORATING_ONLY {
      assert c in Fold(cfg, m, d, now, ground).evidence;
    }
  }

  lemma FoldedCorroborated(cfg: Config, s: Store, id: Id, d: Detection, now: int, ground: Option<Ground>)
    requires Corroborated(cfg.lifecycle, s) && id in s.tracks
    ensures Corroborated(cfg.lifecycle, s.(tracks := s.tracks[id := Folded(cfg, s.tracks[id], d, now, ground)]))
  {
    hide MayConfirm, Fold;
    FoldMonotone(cfg, s.tracks[id].data, d, now, ground, cfg.lifecycle);
  }

  lemma AdvanceCorroborated(lc: Lifecycle, s: Store, now: int, id: Id)
    requires Corroborated(lc, s) && id in s.tracks
    ensures Corroborated(lc, s.(tracks := s.tracks[id := UpdateState(s.tracks[id], now, lc)]))
  {
    hide MayConfirm;
  }

  lemma RememberCorroborated(lc: Lifecycle, s: Store, id: Id)
    requires Corroborated(lc, s) && id in s.tracks && MayConfirm(s.tracks[id].data, lc)
    ensures Corroborated(lc, Remember(s, id))
  {
    hide MayConfirm, BindAll;
  }

  lemma ReapOneCorroborated(cfg: Config, s: Store, now: int, id: Id)
    requires Corroborated(cfg.lifecycle, s) && id in s.tracks
    ensures Corroborated(cfg.lifecycle, ReapOne(cfg, s, now, id))
  {
    AdvanceCorroborated(cfg.lifecycle, s, now, id);
    hide MayConfirm, NextState, Remember;
    var s1 := s.(tracks := s.tracks[id := UpdateState(s.tracks[id], now, cfg.lifecycle)]);
    var s2 := Unindex(s1, id).(all := s.all - {id});
    assert Corroborated(cfg.lifecycle, s2);
    if Shown(s.tracks[id]) {
      RememberCorroborated(cfg.lifecycle, s2, id);
    }
  }

  lemma {:induction false} ReapAllCorroborated(cfg: Config, s: Store, now: int, order: seq<Id>)
    requires Corroborated(cfg.lifecycle, s) && (forall id :: id in order ==> id in s.tracks)
    ensures Corroborated(cfg.lifecycle, ReapAll(cfg, s, now, order))
  {
    hide Corroborated, ReapOne;
    if order != [] {
      var rest, last := order[..|order| - 1], order[|order| - 1];
      ReapAllCorroborated(cfg, s, now, rest);
      ReapOneCorroborated(cfg, ReapAll(cfg, s, now, rest), now, last);
    }
  }

  // ---- Every run ----

  /** LastSeen never runs ahead of the store's own clock, whatever the detections claim. */
  ghost predicate Clocked(w: World) {
    && 0 <= w.clock
    && forall id :: id in w.store.tracks ==> w.store.tracks[id].data.lastSeen <= w.clock
  }

  lemma IngestClocked(cfg: Config, w: World, e: Entry, newId: Id)
    requires Clocked(w) && Enabled(w, Detect(e, newId))
    ensures Clocked(Next(cfg, w, Detect(e, newId)))
  {
    hide WellFormed, Attribute, NextState, Trail, NoisyOr, WithEvidence, WithReceiver, PositionOf;
    if e.d.class_ != CLASS_ADSB {
      AttributeMeasures(cfg, w.store, e.d, e.now, newId);
    }
  }

  ghost predicate Valid(lc: Lifecycle, w: World) {
    Sound(w.store) && Corroborated(lc, w.store) && Clocked(w)
  }

  lemma IngestCorroborated(cfg: Config, s: Store, e: Entry, newId: Id)
    requires Corroborated(cfg.lifecycle, s) && newId !in s.tracks
    ensures Corroborated(cfg.lifecycle, Ingest(cfg, s, e.d, e.now, newId, e.ground).0)
  {
    hide Corroborated, Attribute, Folded;
    if e.d.class_ != CLASS_ADSB {
      AttributeCorroborated(cfg, s, e.d, e.now, newId);
      var (s1, found) := Attribute(cfg, s, e.d, e.now, newId);
      if found.Some? {
        FoldedCorroborated(cfg, s1, found.value, e.d, e.now, e.ground);
      }
    }
  }

  lemma ReapCorroborated(cfg: Config, s: Store, now: int, order: seq<Id>)
    requires Corroborated(cfg.lifecycle, s) && Lists(order, s.all)
    ensures Corroborated(cfg.lifecycle, Reap(cfg, s, now, order))
  {
    assert forall id :: id in order ==> id in s.tracks;
    ReapAllCorroborated(cfg, s, now, order);
    hide ReapAll, MayConfirm;
  }

  /** Every step of the store, detection or tick, keeps soundness, corroboration and the clock bound. */
  lemma NextKeepsValid(cfg: Config, w: World, step: Step)
    requires Valid(cfg.lifecycle, w) && Enabled(w, step)
    ensures Valid(cfg.lifecycle, Next(cfg, w, step))
  {
    hide Sound, Corroborated, Ingest, Reap, NextState;
    match step
    case Detect(e, newId) =>
      IngestKeepsSound(cfg, w.store, e.d, e.now, newId, e.ground);
      IngestClocked(cfg, w, e, newId);
      IngestCorroborated(cfg, w.store, e, newId);
    case Tick(now, order) =>
      ReapKeepsSound(cfg, w.store, now, order);
      ReapCorroborated(cfg, w.store, now, order);
  }

  /** Main: in every reachable state the indexes are sound, what is shown is corroborated, and no track is in the future. */
  lemma {:induction false} RunsStayValid(cfg: Config, ws: seq<World>, steps: seq<Step>, i: nat)
    requires IsRun(cfg, ws, steps) && i < |ws|
    ensures Valid(cfg.lifecycle, ws[i])
  {
    if i > 0 {
      hide Valid, Next, Enabled;
      RunsStayValid(cfg, ws, steps, i - 1);
      NextKeepsValid(cfg, ws[i - 1], steps[i - 1]);
    }
  }

  /** Main: past the last clock by more than CloseAfter, one Reap clears the map; by more than ResumeWithin too, the memory. */
  lemma NoPhantoms(cfg: Config, ws: seq<World>, steps: seq<Step>, now: int, order: seq<Id>)
    requires IsRun(cfg, ws, steps)
    requires var w := ws[|ws| - 1]; Enabled(w, Tick(now, order)) && now - w.clock > cfg.lifecycle.closeAfter
    ensures var r := Reap(cfg, ws[|ws| - 1].store, now, order);
      && r.all == {} && r.bySerial == map[] && r.byMac == map[]
      && (now - ws[|ws| - 1].clock > cfg.lifecycle.resumeWithin ==> r.closedBySerial == map[] && r.closedByMac == map[])
  {
    var w := ws[|ws| - 1];
    RunsStayValid(cfg, ws, steps, |ws| - 1);
    ReapKeepsSound(cfg, w.store, now, order);
    hide ReapAll, Corroborated, NextState;
  }
}
