/**
 One aircraft in continuous contact is one track. Its detections share a MAC; serials may be
 missing, arrive late or differ; other aircraft and Reap ticks are interleaved anywhere.
 */
module OneFlight {
  import opened Options
  import opened Detections
  import opened TrackRecords
  import opened TrackIndex
  import opened TrackSoundness
  import opened TrackRuns
  import opened TrackLedger

  /** The track is live, owns exactly the aircraft's MAC, and is what the MAC leads to. */
  ghost predicate Mine(s: Store, m: string, serials: set<string>, id: Id) {
    && id in s.all
    && id in s.tracks
    && !s.tracks[id].state.Closed?
    && SetOf(s.tracks[id].macs) == {m}
    && (s.tracks[id].serial == "" || s.tracks[id].serial in serials)
    && m in s.byMac
    && s.byMac[m] == id
  }

  ghost predicate NotMine(s: Store, m: string, serials: set<string>, x: Id)
    requires x in s.tracks
  {
    m !in s.tracks[x].macs && s.tracks[x].serial !in serials
  }

  /** At most the one track has anything to do with the aircraft's identities. */
  ghost predicate Apart(s: Store, m: string, serials: set<string>, id: Option<Id>): (b: bool)
    ensures b && id.Some? ==> id.value in s.all && id.value in s.tracks && !s.tracks[id.value].state.Closed?
  {
    && (id.Some? ==> Mine(s, m, serials, id.value))
    && (forall x :: x in s.tracks && id != Some(x) ==> NotMine(s, m, serials, x))
  }

  ghost predicate Names(m: string, serials: set<string>) {
    m != "" && "" !in serials
  }

  // ---- Operations on another aircraft's track ----

  /** The aircraft's own track, if there is one, is as it was. */
  ghost predicate Untouched(s: Store, s1: Store, id: Option<Id>) {
    id.Some? ==> id.value in s.tracks && id.value in s1.tracks && s1.tracks[id.value] == s.tracks[id.value]
  }

  lemma PromoteOther(s: Store, m: string, serials: set<string>, id: Option<Id>, x: Id, serial: string)
    requires WellFormed(s) && Apart(s, m, serials, id) && x in s.tracks && id != Some(x) && serial !in serials
    ensures Apart(Promote(s, x, serial), m, serials, id) && Untouched(s, Promote(s, x, serial), id)
  {
    hide WellFormed;
  }

  lemma UnindexOther(s: Store, m: string, serials: set<string>, id: Option<Id>, x: Id)
    requires WellFormed(s) && Apart(s, m, serials, id) && x in s.tracks && id != Some(x)
    ensures Apart(Unindex(s, x), m, serials, id) && Untouched(s, Unindex(s, x), id)
  {
    hide WellFormed;
  }

  lemma ReopenOther(s: Store, m: string, serials: set<string>, id: Option<Id>, x: Id)
    requires WellFormed(s) && Apart(s, m, serials, id) && x in s.tracks && id != Some(x)
    ensures Apart(Reopen(s, x), m, serials, id) && Untouched(s, Reopen(s, x), id)
  {
    hide WellFormed, BindAll, Release;
  }

  lemma MintOther(s: Store, m: string, serials: set<string>, id: Option<Id>, d: Detection, seen: int, newId: Id)
    requires WellFormed(s) && Apart(s, m, serials, id) && newId !in s.tracks && d.serial !in serials
    ensures Apart(Mint(s, d, seen, newId), m, serials, id) && Untouched(s, Mint(s, d, seen, newId), id)
  {
    hide WellFormed;
  }

  lemma BindMacOther(s: Store, m: string, serials: set<string>, id: Option<Id>, x: Id, mac: string)
    requires WellFormed(s) && Apart(s, m, serials, id) && x in s.tracks && id != Some(x) && mac != m
    ensures Apart(BindMac(s, x, mac), m, serials, id) && Untouched(s, BindMac(s, x, mac), id)
  {
    hide WellFormed, WithMac;
  }

  lemma ClaimOther(s: Store, m: string, serials: set<string>, id: Option<Id>, x: Id, d: Detection)
    requires WellFormed(s) && Apart(s, m, serials, id) && x in s.tracks && id != Some(x)
    requires d.mac != m && d.serial !in serials
    ensures Apart(Claim(s, x, d), m, serials, id) && Untouched(s, Claim(s, x, d), id)
  {
    BindMacOther(s, m, serials, id, x, d.mac);
    hide Apart, BindMac, Promote, WellFormed;
    var s1 := BindMac(s, x, d.mac);
    if d.serial != "" && s1.tracks[x].serial == "" {
      PromoteOther(s1, m, serials, id, x, d.serial);
    }
  }

  lemma ResolveOther(s: Store, m: string, serials: set<string>, id: Option<Id>, d: Detection)
    requires Sound(s) && Apart(s, m, serials, id) && d.mac != m && d.serial !in serials
    ensures var (s1, r) := Resolve(s, d.serial, d.mac);
            Apart(s1, m, serials, id) && Untouched(s, s1, id) && (r.Some? ==> r != id)
  {
    if d.mac in s.byMac {
      var x := s.byMac[d.mac];
      assert d.mac in SetOf(s.tracks[x].macs);
      PromoteOther(s, m, serials, id, x, d.serial);
    }
    hide Promote, ParkedSerials, ParkedMacs, NamedMacs;
  }

  lemma LiveOther(cfg: Config, s: Store, m: string, serials: set<string>, id: Option<Id>, d: Detection, seen: int)
    requires Sound(s) && Apart(s, m, serials, id) && d.mac != m && d.serial !in serials
    ensures var (s1, r) := Live(cfg, s, d, seen);
            Apart(s1, m, serials, id) && Untouched(s, s1, id) && (r.Some? ==> r != id)
  {
    hide Apart, Resolve, Unindex, Resumes, FlightIsOver, SoundBut;
    ResolveOther(s, m, serials, id, d);
    var (s1, r) := Resolve(s, d.serial, d.mac);
    if r.Some? {
      UnindexOther(s1, m, serials, id, r.value);
    }
  }

  lemma ReviveOther(cfg: Config, s: Store, m: string, serials: set<string>, id: Option<Id>, d: Detection, seen: int)
    requires SoundBut(s, d.mac) && Apart(s, m, serials, id) && d.mac != m && d.serial !in serials
    ensures var (s1, r) := Revive(cfg, s, d, seen);
            Apart(s1, m, serials, id) && Untouched(s, s1, id) && (r.Some? ==> r != id)
  {
    var c := ResolveClosed(s, d.serial, d.mac);
    if c.Some? {
      assert c != id;
      ReopenOther(s, m, serials, id, c.value);
    }
    hide Reopen, Resumes, SoundBut;
  }

  lemma AttributeOther(cfg: Config, s: Store, m: string, serials: set<string>, id: Option<Id>, d: Detection, now: int, newId: Id)
    requires Sound(s) && Apart(s, m, serials, id) && d.mac != m && d.serial !in serials && newId !in s.tracks
    ensures var (s1, r) := Attribute(cfg, s, d, now, newId);
            Apart(s1, m, serials, id) && Untouched(s, s1, id) && (r.Some? ==> r != id)
  {
    hide Apart, SoundBut, Live, Revive, Mint, Claim;
    var seen := Seen(d, now);
    LiveKeeps(cfg, s, d, seen);
    LiveOther(cfg, s, m, serials, id, d, seen);
    var (s1, live) := Live(cfg, s, d, seen);
    ReviveOther(cfg, s1, m, serials, id, d, seen);
    var (s2, known) := if live.Some? then (s1, live) else Revive(cfg, s1, d, seen);
    if known.None? {
      MintOther(s2, m, serials, id, d, seen, newId);
      ClaimOther(Mint(s2, d, seen, newId), m, serials, id, newId, d);
    } else {
      ClaimOther(s2, m, serials, id, known.value, d);
    }
  }

  lemma UpdateOther(s: Store, m: string, serials: set<string>, id: Option<Id>, x: Id, t: Track)
    requires Apart(s, m, serials, id) && x in s.tracks && id != Some(x)
    requires t.macs == s.tracks[x].macs && t.serial == s.tracks[x].serial
    ensures Apart(s.(tracks := s.tracks[x := t]), m, serials, id)
  {}

  lemma OtherDetected(cfg: Config, s: Store, m: string, serials: set<string>, id: Option<Id>, e: Entry, newId: Id)
    requires Sound(s) && Apart(s, m, serials, id) && newId !in s.tracks
    requires e.d.class_ != CLASS_ADSB && e.d.mac != m && e.d.serial !in serials
    ensures var (s1, r) := Ingest(cfg, s, e.d, e.now, newId, e.ground);
            Apart(s1, m, serials, id) && Untouched(s, s1, id) && (r.Some? ==> r != id)
  {
    hide Apart, Attribute, Sound, WellFormed, Fold, NextState;
    AttributeOther(cfg, s, m, serials, id, e.d, e.now, newId);
    var (s1, found) := Attribute(cfg, s, e.d, e.now, newId);
    if found.Some? {
      UpdateOther(s1, m, serials, id, found.value, Folded(cfg, s1.tracks[found.value], e.d, e.now, e.ground));
    }
  }

  // ---- The aircraft's own detections ----

  lemma OwnUnknown(s: Store, m: string, serials: set<string>, d: Detection)
    requires Sound(s) && Names(m, serials) && Apart(s, m, serials, None)
    requires d.mac == m && (d.serial == "" || d.serial in serials)
    ensures Resolve(s, d.serial, m) == (s, None) && ResolveClosed(s, d.serial, m) == None
  {
    hide Promote;
  }

  lemma OwnResolves(s: Store, m: string, serials: set<string>, id: Id, d: Detection)
    requires Sound(s) && Names(m, serials) && Apart(s, m, serials, Some(id))
    requires d.mac == m && (d.serial == "" || d.serial in serials)
    ensures var (s1, r) := Resolve(s, d.serial, m);
      r == Some(id) && Apart(s1, m, serials, r) && s1.tracks[id].data == s.tracks[id].data
  {
    hide ParkedSerials, ParkedMacs, NamedMacs, LiveMacs;
  }

  /** The track the aircraft's detection goes to: its own if it has one, else a new one. */
  function Target(id: Option<Id>, newId: Id): Id {
    if id.Some? then id.value else newId
  }

  function LastHeard(s: Store, id: Option<Id>): int
    requires id.Some? ==> id.value in s.tracks
  {
    if id.Some? then s.tracks[id.value].data.lastSeen else 0
  }

  lemma OwnClaims(s: Store, m: string, serials: set<string>, id: Id, d: Detection)
    requires WellFormed(s) && Names(m, serials) && Apart(s, m, serials, Some(id))
    requires d.mac == m && (d.serial == "" || d.serial in serials)
    ensures Apart(Claim(s, id, d), m, serials, Some(id))
    ensures Claim(s, id, d).tracks[id].data == s.tracks[id].data
  {
    hide WellFormed;
    assert m in SetOf(s.tracks[id].macs);
  }

  lemma FirstClaims(s: Store, m: string, serials: set<string>, d: Detection, seen: int, newId: Id)
    requires WellFormed(s) && Names(m, serials) && Apart(s, m, serials, None) && newId !in s.tracks
    requires d.mac == m && (d.serial == "" || d.serial in serials)
    ensures var s1 := Claim(Mint(s, d, seen, newId), newId, d);
            Apart(s1, m, serials, Some(newId)) && s1.tracks[newId].data == NewTrack(d, seen).data
  {
    hide WellFormed;
  }

  lemma OwnAttributed(cfg: Config, s: Store, m: string, serials: set<string>, id: Option<Id>, d: Detection, now: int, newId: Id)
    requires Sound(s) && Names(m, serials) && Apart(s, m, serials, id) && newId !in s.tracks
    requires d.mac == m && (d.serial == "" || d.serial in serials)
    requires id.Some? ==> Seen(d, now) - LastHeard(s, id) <= cfg.lifecycle.closeAfter
    ensures var (s1, r) := Attribute(cfg, s, d, now, newId); var t := Target(id, newId);
      && r == Some(t)
      && Apart(s1, m, serials, Some(t))
      && s1.tracks[t].data == if id.Some? then s.tracks[t].data else NewTrack(d, Seen(d, now)).data
  {
    if id.Some? {
      OwnResolves(s, m, serials, id.value, d);
      var s1 := Resolve(s, d.serial, m).0;
      assert !FlightIsOver(cfg.lifecycle, s1.tracks[id.value], Seen(d, now));
      OwnClaims(s1, m, serials, id.value, d);
    } else {
      OwnUnknown(s, m, serials, d);
      FirstClaims(s, m, serials, d, Seen(d, now), newId);
    }
    hide Apart, Resolve, Resumes, Mint, Claim, SoundBut, WellFormed;
  }

  lemma StaysMine(s: Store, m: string, serials: set<string>, id: Id, t: Track)
    requires Apart(s, m, serials, Some(id)) && !t.state.Closed?
    requires t.macs == s.tracks[id].macs && t.serial == s.tracks[id].serial
    ensures Apart(s.(tracks := s.tracks[id := t]), m, serials, Some(id))
  {}

  lemma OwnDetected(cfg: Config, s: Store, m: string, serials: set<string>, id: Option<Id>, e: Entry, newId: Id)
    requires Sound(s) && Names(m, serials) && Apart(s, m, serials, id) && newId !in s.tracks
    requires e.d.class_ != CLASS_ADSB && e.d.mac == m && (e.d.serial == "" || e.d.serial in serials)
    requires id.Some? ==> Seen(e.d, e.now) - LastHeard(s, id) <= cfg.lifecycle.closeAfter
    requires e.now - Later(LastHeard(s, id), Seen(e.d, e.now)) <= cfg.lifecycle.closeAfter
    ensures var (s1, r) := Ingest(cfg, s, e.d, e.now, newId, e.ground); var t := Target(id, newId);
      && r == Some(t)
      && Apart(s1, m, serials, Some(t))
      && s1.tracks[t].data.lastSeen == Later(LastHeard(s, id), Seen(e.d, e.now))
  {
    hide Attribute, Apart, WellFormed, Trail, NoisyOr, WithEvidence, WithReceiver, PositionOf, MayConfirm;
    OwnAttributed(cfg, s, m, serials, id, e.d, e.now, newId);
    var (s1, r) := Attribute(cfg, s, e.d, e.now, newId);
    var t := Target(id, newId);
    StaysMine(s1, m, serials, t, Folded(cfg, s1.tracks[t], e.d, e.now, e.ground));
  }

  // ---- A Reap tick ----

  lemma ReapOneApart(cfg: Config, s: Store, m: string, serials: set<string>, id: Option<Id>, now: int, x: Id)
    requires WellFormed(s) && Apart(s, m, serials, id) && x in s.tracks
    requires id.Some? ==> now - LastHeard(s, id) <= cfg.lifecycle.closeAfter
    ensures var r := ReapOne(cfg, s, now, x);
            Apart(r, m, serials, id) && LastHeard(r, id) == LastHeard(s, id)
  {
    hide WellFormed, MayConfirm, BindAll;
  }

  lemma {:induction false} ReapAllApart(cfg: Config, s: Store, m: string, serials: set<string>, id: Option<Id>, now: int, order: seq<Id>)
    requires WellFormed(s) && Apart(s, m, serials, id) && (forall x :: x in order ==> x in s.tracks)
    requires id.Some? ==> now - LastHeard(s, id) <= cfg.lifecycle.closeAfter
    ensures var r := ReapAll(cfg, s, now, order);
            Apart(r, m, serials, id) && LastHeard(r, id) == LastHeard(s, id)
  {
    hide WellFormed, Apart, ReapOne, LastHeard;
    if order != [] {
      ReapAllApart(cfg, s, m, serials, id, now, order[..|order| - 1]);
      ReapOneApart(cfg, ReapAll(cfg, s, now, order[..|order| - 1]), m, serials, id, now, order[|order| - 1]);
    }
  }

  lemma Ticked(cfg: Config, s: Store, m: string, serials: set<string>, id: Option<Id>, now: int, order: seq<Id>)
    requires WellFormed(s) && Apart(s, m, serials, id) && Lists(order, s.all)
    requires id.Some? ==> now - LastHeard(s, id) <= cfg.lifecycle.closeAfter
    ensures var r := Reap(cfg, s, now, order);
            Apart(r, m, serials, id) && LastHeard(r, id) == LastHeard(s, id)
  {
    assert forall x :: x in order ==> x in s.tracks;
    ReapAllApart(cfg, s, m, serials, id, now, order);
    hide ReapAll, NotMine, WellFormed;
  }

  // ---- Whole runs ----

  predicate IsOwn(step: Step, m: string) {
    step.Detect? && step.entry.d.class_ != CLASS_ADSB && step.entry.d.mac == m
  }

  /** The aircraft's own detections, in the order they were ingested. */
  function Own(steps: seq<Step>, m: string): seq<Entry> {
    if steps == [] then []
    else
      var last := steps[|steps| - 1];
      Own(steps[..|steps| - 1], m) + if IsOwn(last, m) then [last.entry] else []
  }

  /** The newest lifecycle time among a list of detections. */
  function Newest(es: seq<Entry>): int {
    if es == [] then 0 else Later(Newest(es[..|es| - 1]), Seen(es[|es| - 1].d, es[|es| - 1].now))
  }

  /** The aircraft uses only `serials`, and no other aircraft uses its MAC or its serials. */
  ghost predicate Unshared(step: Step, m: string, serials: set<string>) {
    step.Detect? && step.entry.d.class_ != CLASS_ADSB ==>
      if step.entry.d.mac == m then step.entry.d.serial == "" || step.entry.d.serial in serials
      else step.entry.d.serial !in serials
  }

  /** A step that happens within CloseAfter of the aircraft's newest detection. */
  predicate InContact(lc: Lifecycle, before: seq<Entry>, step: Step, m: string) {
    if IsOwn(step, m) then
      var seen := Seen(step.entry.d, step.entry.now);
      && (before != [] ==> seen - Newest(before) <= lc.closeAfter)
      && step.entry.now - Later(Newest(before), seen) <= lc.closeAfter
    else step.Tick? && before != [] ==> step.now - Newest(before) <= lc.closeAfter
  }

  ghost predicate OneAircraft(cfg: Config, steps: seq<Step>, m: string, serials: set<string>) {
    && Names(m, serials)
    && (forall i :: 0 <= i < |steps| ==>
          Unshared(steps[i], m, serials) && InContact(cfg.lifecycle, Own(steps[..i], m), steps[i], m))
  }

  /** The aircraft's detections so far are exactly the ones folded into its one track. */
  ghost predicate Flying(w: World, m: string, serials: set<string>, own: seq<Entry>, id: Option<Id>) {
    && Apart(w.store, m, serials, id)
    && (id.None? <==> own == [])
    && (id.Some? ==> Logged(w.log, id.value) == own)
    && LastHeard(w.store, id) == Newest(own)
    && (forall x :: x in w.log && id != Some(x) ==> forall i :: 0 <= i < |w.log[x]| ==> w.log[x][i].d.mac != m)
  }

  lemma TickFlying(cfg: Config, w: World, now: int, order: seq<Id>, m: string, serials: set<string>, own: seq<Entry>, id: Option<Id>)
    requires Enabled(w, Tick(now, order)) && InContact(cfg.lifecycle, own, Tick(now, order), m)
    requires Flying(w, m, serials, own, id)
    ensures Flying(Next(cfg, w, Tick(now, order)), m, serials, own, id)
  {
    hide Reap, Apart, WellFormed, LastHeard, Newest;
    Ticked(cfg, w.store, m, serials, id, now, order);
  }

  lemma NewestStep(own: seq<Entry>, e: Entry)
    ensures Newest(own + [e]) == Later(Newest(own), Seen(e.d, e.now))
  {
    assert (own + [e])[..|own|] == own;
  }

  lemma OwnFlying(cfg: Config, w: World, e: Entry, newId: Id, m: string, serials: set<string>, own: seq<Entry>, id: Option<Id>)
    requires Sound(w.store) && w.log.Keys == w.store.tracks.Keys && Enabled(w, Detect(e, newId)) && IsOwn(Detect(e, newId), m)
    requires Names(m, serials) && Unshared(Detect(e, newId), m, serials) && InContact(cfg.lifecycle, own, Detect(e, newId), m)
    requires Flying(w, m, serials, own, id)
    ensures Flying(Next(cfg, w, Detect(e, newId)), m, serials, own + [e], Some(Target(id, newId)))
  {
    hide Ingest, Apart, WellFormed, SoundBut, Newest;
    OwnDetected(cfg, w.store, m, serials, id, e, newId);
    NewestStep(own, e);
  }

  lemma OtherFlying(cfg: Config, w: World, e: Entry, newId: Id, m: string, serials: set<string>, own: seq<Entry>, id: Option<Id>)
    requires Sound(w.store) && Enabled(w, Detect(e, newId)) && !IsOwn(Detect(e, newId), m)
    requires Unshared(Detect(e, newId), m, serials)
    requires Flying(w, m, serials, own, id)
    ensures Flying(Next(cfg, w, Detect(e, newId)), m, serials, own, id)
  {
    if e.d.class_ != CLASS_ADSB {
      hide Ingest, Apart, WellFormed, SoundBut;
      OtherDetected(cfg, w.store, m, serials, id, e, newId);
    }
  }

  lemma NextFlying(cfg: Config, w: World, step: Step, m: string, serials: set<string>, own: seq<Entry>, id: Option<Id>)
    returns (own1: seq<Entry>, id1: Option<Id>)
    requires Sound(w.store) && w.log.Keys == w.store.tracks.Keys && Enabled(w, step)
    requires Names(m, serials) && Unshared(step, m, serials) && InContact(cfg.lifecycle, own, step, m)
    requires Flying(w, m, serials, own, id)
    ensures own1 == own + (if IsOwn(step, m) then [step.entry] else [])
    ensures id.Some? ==> id1 == id
    ensures Flying(Next(cfg, w, step), m, serials, own1, id1)
  {
    hide Next, Sound, Enabled, Flying, Unshared, InContact;
    own1, id1 := own, id;
    match step
    case Tick(now, order) =>
      TickFlying(cfg, w, now, order, m, serials, own, id);
    case Detect(e, newId) =>
      if IsOwn(step, m) {
        OwnFlying(cfg, w, e, newId, m, serials, own, id);
        own1, id1 := own + [e], Some(Target(id, newId));
      } else {
        OtherFlying(cfg, w, e, newId, m, serials, own, id);
      }
  }

  lemma OneStep(cfg: Config, ws: seq<World>, steps: seq<Step>, m: string, serials: set<string>, k: nat)
    requires IsRun(cfg, ws, steps) && OneAircraft(cfg, steps, m, serials) && k < |steps|
    ensures |ws| == |steps| + 1 && Enabled(ws[k], steps[k]) && ws[k + 1] == Next(cfg, ws[k], steps[k])
    ensures Names(m, serials) && Unshared(steps[k], m, serials) && InContact(cfg.lifecycle, Own(steps[..k], m), steps[k], m)
    ensures Own(steps[..k + 1], m) == Own(steps[..k], m) + if IsOwn(steps[k], m) then [steps[k].entry] else []
  {
    hide Next, Enabled, Unshared, InContact;
    assert steps[..k + 1][..k] == steps[..k];
  }

  lemma FliesOn(cfg: Config, ws: seq<World>, steps: seq<Step>, m: string, serials: set<string>, k: nat, id: Option<Id>)
    returns (id1: Option<Id>)
    requires IsRun(cfg, ws, steps) && OneAircraft(cfg, steps, m, serials) && k < |steps|
    requires |ws| == |steps| + 1 && Flying(ws[k], m, serials, Own(steps[..k], m), id)
    ensures Flying(ws[k + 1], m, serials, Own(steps[..k + 1], m), id1)
  {
    hide IsRun, OneAircraft, Ledger, Next, Sound, Enabled, Corroborated, Clocked, Flying, Unshared, InContact, Own;
    OneStep(cfg, ws, steps, m, serials, k);
    RunsStayValid(cfg, ws, steps, k);
    RunsStayBooked(cfg, ws, steps, k);
    var own;
    own, id1 := NextFlying(cfg, ws[k], steps[k], m, serials, Own(steps[..k], m), id);
  }

  lemma NotHeardYet(cfg: Config, ws: seq<World>, steps: seq<Step>, m: string, serials: set<string>)
    requires IsRun(cfg, ws, steps) && OneAircraft(cfg, steps, m, serials)
    ensures |ws| == |steps| + 1 && Flying(ws[0], m, serials, Own(steps[..0], m), None)
  {
    hide Next, Enabled;
  }

  lemma {:induction false} FliesAsOne(cfg: Config, ws: seq<World>, steps: seq<Step>, m: string, serials: set<string>, n: nat)
    returns (id: Option<Id>)
    requires IsRun(cfg, ws, steps) && OneAircraft(cfg, steps, m, serials) && n <= |steps|
    ensures |ws| == |steps| + 1 && Flying(ws[n], m, serials, Own(steps[..n], m), id)
  {
    hide IsRun, OneAircraft, Flying, Own;
    NotHeardYet(cfg, ws, steps, m, serials);
    id := None;
    if n > 0 {
      id := FliesAsOne(cfg, ws, steps, m, serials, n - 1);
      id := FliesOn(cfg, ws, steps, m, serials, n - 1, id);
    }
  }

  /** Main: an aircraft in contact throughout is one track, which counts each of its detections once. */
  lemma OneFlightIsOneTrack(cfg: Config, ws: seq<World>, steps: seq<Step>, m: string, serials: set<string>)
    returns (id: Id)
    requires IsRun(cfg, ws, steps) && OneAircraft(cfg, steps, m, serials) && Own(steps, m) != []
    ensures var w := ws[|steps|];
      && id in w.store.all && id in w.store.tracks && id in w.log
      && w.log[id] == Own(steps, m)
      && w.store.tracks[id].data.detectionCount == |Own(steps, m)|
      && (forall x :: x in w.log && x != id ==> forall i :: 0 <= i < |w.log[x]| ==> w.log[x][i].d.mac != m)
  {
    hide Next, Sound, Enabled, OneAircraft, ByClass, Sum, Receptions, Path;
    var r := FliesAsOne(cfg, ws, steps, m, serials, |steps|);
    RunsStayBooked(cfg, ws, steps, |steps|);
    assert steps[..|steps|] == steps;
    id := r.value;
  }
}
