/**
 The lifecycle as a reader of the map sees it: when a track is TENTATIVE, CONFIRMED, COASTING or CLOSED, right after a Reap
 and right after a detection, from the list of detections folded into it and the clock alone.
 */
module TrackLifecycle {
  import opened Options
  import opened Detections
  import opened TrackRecords
  import opened TrackIndex
  import opened TrackSoundness
  import opened TrackRuns
  import opened TrackLedger
  import opened TrackReaping

  /** When a detection was made, by the store's clock at most. */
  function Stamp(e: Entry): int {
    if e.d.ts <= e.now then e.d.ts else e.now
  }

  /** When the newest of the detections was made; the zero time if none was after that. */
  ghost predicate Newest(t: int, es: seq<Entry>) {
    && 0 <= t
    && (forall k :: 0 <= k < |es| ==> Stamp(es[k]) <= t)
    && (t == 0 || exists k :: 0 <= k < |es| && Stamp(es[k]) == t)
  }

  /** Enough detections over enough time, one of them more than a corroboration of something else: neither a class C nor a
      class H nor an ADS-B report. */
  ghost predicate Confirmable(es: seq<Entry>, last: int, lc: Lifecycle) {
    && es != []
    && (exists k :: 0 <= k < |es| && es[k].d.class_ != "C" && es[k].d.class_ != "D" && es[k].d.class_ != "H")
    && |es| >= lc.confirmMinDetections
    && last - Stamp(es[0]) >= lc.confirmMinSpan
  }

  /** What becomes of a state once a track has been quiet for so long. */
  ghost predicate Advances(before: State, after: State, quiet: int, confirmable: bool, lc: Lifecycle) {
    && (after.Closed? <==> before.Closed? || quiet > lc.closeAfter)
    && (after.Coasting? <==> (before.Confirmed? || before.Coasting?) && lc.coastAfter < quiet <= lc.closeAfter)
    && (after.Confirmed? <==>
          && quiet <= lc.coastAfter && quiet <= lc.closeAfter
          && (before.Confirmed? || before.Coasting? || (before.Tentative? && confirmable)))
    && (after.Tentative? <==> before.Tentative? && quiet <= lc.closeAfter && !(quiet <= lc.coastAfter && confirmable))
  }

  // ---- What a track's times and classes amount to ----

  lemma LatestNewest(t: int, es: seq<Entry>)
    requires Latest(t, es)
    ensures Newest(t, es)
  {
    assert forall k :: 0 <= k < |es| ==> Stamp(es[k]) == Seen(es[k].d, es[k].now);
    if t != 0 {
      var k :| 0 <= k < |es| && Seen(es[k].d, es[k].now) == t;
      assert Stamp(es[k]) == t;
    }
  }

  lemma IdentifiedByList(cfg: Config, m: Measures, es: seq<Entry>)
    requires ByClass(cfg, m.evidence, es)
    ensures Identified(m) <==>
            exists k :: 0 <= k < |es| && es[k].d.class_ != "C" && es[k].d.class_ != "D" && es[k].d.class_ != "H"
  {
    if Identified(m) {
      var c :| c in m.evidence && c !in CORROBORATING_ONLY;
      ClassCounted(es, c);
    }
    if k :| 0 <= k < |es| && es[k].d.class_ != "C" && es[k].d.class_ != "D" && es[k].d.class_ != "H" {
      ClassCounted(es, es[k].d.class_);
      assert es[k].d.class_ in m.evidence && es[k].d.class_ !in CORROBORATING_ONLY;
    }
  }

  lemma ConfirmableByList(cfg: Config, m: Measures, es: seq<Entry>, lc: Lifecycle)
    requires Ledger(cfg, m, es) && es != []
    ensures MayConfirm(m, lc) <==> Confirmable(es, m.lastSeen, lc)
    ensures Newest(m.lastSeen, es)
  {
    hide Identified, ByClass, Latest, Newest;
    IdentifiedByList(cfg, m, es);
    LatestNewest(m.lastSeen, es);
  }

  lemma StateAdvances(state: State, m: Measures, now: int, lc: Lifecycle)
    ensures Advances(state, NextState(state, m, now, lc), now - m.lastSeen, MayConfirm(m, lc), lc)
  {
    hide MayConfirm;
  }

  // ---- After a Reap ----

  lemma ReapAdvances(cfg: Config, s: Store, now: int, order: seq<Id>, id: Id)
    requires Sound(s) && Lists(order, s.all) && id in s.tracks
    ensures var r := Reap(cfg, s, now, order);
      && id in r.tracks
      && r.tracks[id] == s.tracks[id].(state := r.tracks[id].state)
      && (id in s.all ==>
            && Advances(s.tracks[id].state, r.tracks[id].state, now - s.tracks[id].data.lastSeen,
                        MayConfirm(s.tracks[id].data, cfg.lifecycle), cfg.lifecycle)
            && (id in r.all <==> !r.tracks[id].state.Closed?))
      && (id !in s.all ==> r.tracks[id] == s.tracks[id] && id !in r.all)
  {
    hide Sound, Reap, NextState, MayConfirm;
    ReapKeepsSound(cfg, s, now, order);
    StateAdvances(s.tracks[id].state, s.tracks[id].data, now, cfg.lifecycle);
  }

  lemma StepOf(cfg: Config, ws: seq<World>, steps: seq<Step>, i: nat)
    requires IsRun(cfg, ws, steps) && i < |steps|
    ensures i + 1 < |ws| && Enabled(ws[i], steps[i]) && ws[i + 1] == Next(cfg, ws[i], steps[i])
  {}

  lemma BookedLedger(cfg: Config, w: World, id: Id)
    requires Booked(cfg, w) && id in w.store.tracks
    ensures id in w.log && w.log[id] != [] && Ledger(cfg, w.store.tracks[id].data, w.log[id])
  {
    hide Ledger;
  }

  /** Main: right after any Reap of any run, a live track is COASTING exactly when it was on the map and has been quiet for
      more than CoastAfter and no more than CloseAfter; CONFIRMED exactly when it was heard within both, and was on the map
      before or is corroborated; and gone, as CLOSED, exactly when it was quiet for more than CloseAfter. Tracks that are
      not live stay as they were. */
  lemma TickExactly(cfg: Config, ws: seq<World>, steps: seq<Step>, i: nat, id: Id)
    requires IsRun(cfg, ws, steps) && i < |steps| && steps[i].Tick? && id in ws[i].store.tracks
    ensures id in ws[i].log && id in ws[i + 1].store.tracks
    ensures var t, u, es, lc := ws[i].store.tracks[id], ws[i + 1].store.tracks[id], ws[i].log[id], cfg.lifecycle;
      && Newest(t.data.lastSeen, es)
      && u == t.(state := u.state)
      && (id in ws[i].store.all ==>
            && Advances(t.state, u.state, steps[i].now - t.data.lastSeen, Confirmable(es, t.data.lastSeen, lc), lc)
            && (id in ws[i + 1].store.all <==> !u.state.Closed?))
      && (id !in ws[i].store.all ==> u.state == t.state && id !in ws[i + 1].store.all)
  {
    hide IsRun, Sound, Booked, Ledger, Reap, Advances, MayConfirm, Confirmable, Newest, Corroborated, Clocked, WellFormed;
    StepOf(cfg, ws, steps, i);
    RunsStayValid(cfg, ws, steps, i);
    RunsStayBooked(cfg, ws, steps, i);
    var w := ws[i];
    BookedLedger(cfg, w, id);
    ConfirmableByList(cfg, w.store.tracks[id].data, w.log[id], cfg.lifecycle);
    ReapAdvances(cfg, w.store, steps[i].now, steps[i].order, id);
  }

  /** Main: a Reap reports a track exactly when it changed the track's state. */
  lemma ReportedExactly(cfg: Config, s: Store, now: int, order: seq<Id>, id: Id)
    requires Sound(s) && Lists(order, s.all)
    ensures forall x :: x in order ==> x in s.tracks
    ensures id in Changed(cfg, s, now, order) <==>
            id in s.all && id in s.tracks && id in Reap(cfg, s, now, order).tracks
            && Reap(cfg, s, now, order).tracks[id].state != s.tracks[id].state
  {
    hide Sound, Reap, UpdateState;
    ReapKeepsSound(cfg, s, now, order);
    InAll(s);
    assert forall x :: x in order <==> x in s.all;
    ChangedByList(cfg, s, now, order, id);
  }

  lemma {:induction false} ChangedByList(cfg: Config, s: Store, now: int, order: seq<Id>, id: Id)
    requires forall x :: x in order ==> x in s.tracks
    ensures id in Changed(cfg, s, now, order) <==>
            id in order && UpdateState(s.tracks[id], now, cfg.lifecycle).state != s.tracks[id].state
  {
    hide UpdateState;
    if order != [] {
      ChangedByList(cfg, s, now, order[..|order| - 1], id);
      assert order == order[..|order| - 1] + [order[|order| - 1]];
    }
  }

  // ---- Where a detection goes ----

  /** The flight has ended by the time of the detection, whether or not a Reap has said so. */
  predicate IsOver(cfg: Config, t: Track, at: int) {
    t.state.Closed? || at - t.data.lastSeen > cfg.lifecycle.closeAfter
  }

  /** The aircraft was not away too long, and is at least 200 m from where it took off, or 40 m above. */
  predicate InTheAir(cfg: Config, t: Track, d: Detection, at: int) {
    && cfg.lifecycle.resumeWithin > 0 && at - t.data.lastSeen <= cfg.lifecycle.resumeWithin
    && d.position.Some? && t.data.history != []
    && (|| cfg.dist(t.data.history[0].lat, t.data.history[0].lon, d.position.value.lat, d.position.value.lon) >= 200.0
        || (&& t.data.history[0].altGeodeticM.Some? && d.position.value.altGeodeticM.Some?
            && d.position.value.altGeodeticM.value >= t.data.history[0].altGeodeticM.value + 40.0))
  }

  lemma ResumesInTheAir(cfg: Config, t: Track, d: Detection, at: int)
    ensures Resumes(cfg, t, d, at) <==> InTheAir(cfg, t, d, at)
    ensures FlightIsOver(cfg.lifecycle, t, at) <==> IsOver(cfg, t, at)
  {}

  /** The live track the serial leads to, else the one the MAC does. */
  function Named(bySerial: map<string, Id>, byMac: map<string, Id>, d: Detection): Option<Id> {
    if d.serial != "" && d.serial in bySerial then Some(bySerial[d.serial])
    else if d.mac != "" && d.mac in byMac then Some(byMac[d.mac])
    else None
  }

  /** The track a detection goes to is `r`. */
  ghost predicate GoesTo(cfg: Config, s: Store, d: Detection, at: int, newId: Id, r: Option<Id>) {
    var live, closed := Named(s.bySerial, s.byMac, d), Named(s.closedBySerial, s.closedByMac, d);
    if live.Some? && live.value in s.tracks && (!IsOver(cfg, s.tracks[live.value], at) || InTheAir(cfg, s.tracks[live.value], d, at))
    then r == live
    else if closed.Some? && closed.value in s.tracks && InTheAir(cfg, s.tracks[closed.value], d, at) then r == closed
    else if d.serial != "" || d.mac != "" then r == Some(newId)
    else r == None
  }

  lemma AttributedExactly(cfg: Config, s: Store, d: Detection, now: int, newId: Id)
    requires WellFormed(s) && newId !in s.tracks
    ensures GoesTo(cfg, s, d, Stamp(Entry(d, now, None)), newId, Attribute(cfg, s, d, now, newId).1)
  {
    var at := Seen(d, now);
    AttributeIs(cfg, s, d, now, newId);
    LiveIs(cfg, s, d, at);
    ResolvesInto(s, d.serial, d.mac);
    hide Attribute, Live, Resolve, Resumes, FlightIsOver, InTheAir, IsOver, WellFormed;
    ResolveNamed(s, d);
    var live, closed := Named(s.bySerial, s.byMac, d), Named(s.closedBySerial, s.closedByMac, d);
    if live.Some? && live.value in s.tracks {
      ResumesInTheAir(cfg, s.tracks[live.value], d, at);
    }
    if closed.Some? && closed.value in s.tracks {
      ResumesInTheAir(cfg, s.tracks[closed.value], d, at);
    }
  }

  lemma ResolveNamed(s: Store, d: Detection)
    requires WellFormed(s)
    ensures Resolve(s, d.serial, d.mac).1 == Named(s.bySerial, s.byMac, d)
    ensures ResolveClosed(s, d.serial, d.mac) == Named(s.closedBySerial, s.closedByMac, d)
  {}

  /** Main: an ADS-B report goes nowhere. Any other detection goes to the live track its serial, else its MAC, leads to,
      unless that flight is over and the aircraft is not in the air; else to the closed flight they lead to, if it is in the
      air; else to a new track, if it has a name at all. One that goes nowhere changes nothing. */
  lemma GoesExactly(cfg: Config, ws: seq<World>, steps: seq<Step>, i: nat)
    requires IsRun(cfg, ws, steps) && i < |steps| && steps[i].Detect?
    ensures Enabled(ws[i], steps[i])
    ensures var e, r := steps[i].entry, Attributed(cfg, ws[i], steps[i]);
      && (if e.d.class_ == "D" then r == None else GoesTo(cfg, ws[i].store, e.d, Stamp(e), steps[i].newId, r))
      && (r.None? <==> e.d.class_ == "D" || (e.d.serial == "" && e.d.mac == ""))
      && (r.None? ==> ws[i + 1].store == ws[i].store && ws[i + 1].log == ws[i].log)
  {
    hide IsRun, GoesTo, Attribute, Next, Sound, Corroborated, Clocked;
    StepOf(cfg, ws, steps, i);
    RunsStayValid(cfg, ws, steps, i);
    var s, e := ws[i].store, steps[i].entry;
    AttributedExactly(cfg, s, e.d, e.now, steps[i].newId);
    Nameless(cfg, s, e.d, e.now, steps[i].newId);
    DetectIs(cfg, ws[i], e, steps[i].newId);
  }

  lemma DetectIs(cfg: Config, w: World, e: Entry, newId: Id)
    requires Enabled(w, Detect(e, newId))
    ensures Attributed(cfg, w, Detect(e, newId)) ==
            if e.d.class_ == "D" then None else Attribute(cfg, w.store, e.d, e.now, newId).1
    ensures Attributed(cfg, w, Detect(e, newId)).None? ==>
            var v := Next(cfg, w, Detect(e, newId));
            v.log == w.log && v.store == if e.d.class_ == "D" then w.store else Attribute(cfg, w.store, e.d, e.now, newId).0
  {
    hide Attribute, Folded;
  }

  lemma Nameless(cfg: Config, s: Store, d: Detection, now: int, newId: Id)
    requires WellFormed(s) && newId !in s.tracks
    ensures Attribute(cfg, s, d, now, newId).1 == None ==> Attribute(cfg, s, d, now, newId).0 == s
    ensures Attribute(cfg, s, d, now, newId).1 == None <==> d.serial == "" && d.mac == ""
  {
    hide Resumes, FlightIsOver, Claim, Mint;
  }

  // ---- After a detection ----

  /** The state a track is in when a detection reaches it: a new one is TENTATIVE, a closed flight rejoins COASTING. */
  function StateAtFirst(s: Store, id: Id): State {
    if id !in s.tracks then Tentative else if id in s.all then s.tracks[id].state else Coasting
  }

  lemma ReviveState(cfg: Config, s: Store, d: Detection, seen: int)
    requires SoundBut(s, d.mac)
    ensures var (s1, r) := Revive(cfg, s, d, seen);
      r.Some? ==> r.value in s.tracks && r.value !in s.all && s1.tracks[r.value].state.Coasting?
  {
    hide Resumes, LiveSerials, LiveMacs, NamedMacs, BindAll, Release;
  }

  lemma MintState(s: Store, d: Detection, seen: int, newId: Id)
    requires WellFormed(s) && newId !in s.tracks
    ensures Mint(s, d, seen, newId).tracks[newId].state.Tentative?
  {}

  lemma LiveSame(cfg: Config, s: Store, d: Detection, seen: int)
    requires WellFormed(s)
    ensures Live(cfg, s, d, seen).0.all == s.all
  {
    hide Resumes, FlightIsOver;
  }

  lemma AttributeState(cfg: Config, s: Store, d: Detection, now: int, newId: Id)
    requires Sound(s) && newId !in s.tracks
    ensures var (s1, r) := Attribute(cfg, s, d, now, newId);
      r.Some? ==> s1.tracks[r.value].state == StateAtFirst(s, r.value)
  {
    hide Sound, SoundBut, Live, Revive, Claim, Mint, WellFormed;
    var seen := Seen(d, now);
    LiveRebinds(cfg, s, d, seen);
    LiveKeeps(cfg, s, d, seen);
    LiveSame(cfg, s, d, seen);
    var (s1, live) := Live(cfg, s, d, seen);
    ReviveState(cfg, s1, d, seen);
    var (s2, known) := if live.Some? then (s1, live) else Revive(cfg, s1, d, seen);
    if known.Some? {
      ClaimRebinds(s2, known.value, d);
    } else {
      MintState(s2, d, seen, newId);
      ClaimRebinds(Mint(s2, d, seen, newId), newId, d);
    }
  }

  lemma FoldedAdvances(cfg: Config, t: Track, d: Detection, now: int, ground: Option<Ground>)
    ensures var u := Folded(cfg, t, d, now, ground);
      Advances(t.state, u.state, now - u.data.lastSeen, MayConfirm(u.data, cfg.lifecycle), cfg.lifecycle)
  {
    hide Fold, NextState, MayConfirm;
    StateAdvances(t.state, Fold(cfg, t.data, d, now, ground), now, cfg.lifecycle);
  }

  lemma IngestAdvances(cfg: Config, s: Store, d: Detection, now: int, newId: Id, ground: Option<Ground>)
    requires Sound(s) && newId !in s.tracks
    ensures var (s1, r) := Ingest(cfg, s, d, now, newId, ground);
      r.Some? ==>
        var u := s1.tracks[r.value];
        Advances(StateAtFirst(s, r.value), u.state, now - u.data.lastSeen, MayConfirm(u.data, cfg.lifecycle), cfg.lifecycle)
  {
    hide Sound, Attribute, Folded, MayConfirm, Advances;
    if d.class_ != CLASS_ADSB {
      AttributeState(cfg, s, d, now, newId);
      var (s1, r) := Attribute(cfg, s, d, now, newId);
      if r.Some? {
        FoldedAdvances(cfg, s1.tracks[r.value], d, now, ground);
      }
    }
  }

  /** Main: right after any detection of any run, the track it went to is in the state that its detections, the new one
      among them, and the clock make of the state it was in: TENTATIVE for a new track, COASTING for a closed flight. */
  lemma DetectExactly(cfg: Config, ws: seq<World>, steps: seq<Step>, i: nat)
    requires IsRun(cfg, ws, steps) && i < |steps| && steps[i].Detect?
    ensures Enabled(ws[i], steps[i])
    ensures var e, r := steps[i].entry, Attributed(cfg, ws[i], steps[i]);
      r.Some? ==>
        && r.value in ws[i + 1].store.all && r.value in ws[i + 1].store.tracks && r.value in ws[i + 1].log
        && var u, es, lc := ws[i + 1].store.tracks[r.value], ws[i + 1].log[r.value], cfg.lifecycle;
        && es == Logged(ws[i].log, r.value) + [e]
        && Newest(u.data.lastSeen, es)
        && Advances(StateAtFirst(ws[i].store, r.value), u.state, e.now - u.data.lastSeen,
                    Confirmable(es, u.data.lastSeen, lc), lc)
  {
    hide IsRun, Next, Sound, Booked, Ledger, Advances, MayConfirm, Confirmable, Newest, Corroborated, Clocked, Ingest, WellFormed;
    StepOf(cfg, ws, steps, i);
    RunsStayValid(cfg, ws, steps, i);
    RunsStayBooked(cfg, ws, steps, i + 1);
    var w, e, newId := ws[i], steps[i].entry, steps[i].newId;
    IngestAdvances(cfg, w.store, e.d, e.now, newId, e.ground);
    IngestKeepsSound(cfg, w.store, e.d, e.now, newId, e.ground);
    FoldedIn(cfg, w, e, newId);
    var r := Attributed(cfg, w, steps[i]);
    if r.Some? {
      BookedLedger(cfg, ws[i + 1], r.value);
      ConfirmableByList(cfg, ws[i + 1].store.tracks[r.value].data, ws[i + 1].log[r.value], cfg.lifecycle);
    }
  }

  lemma FoldedIn(cfg: Config, w: World, e: Entry, newId: Id)
    requires Enabled(w, Detect(e, newId))
    ensures var v, (s1, r) := Next(cfg, w, Detect(e, newId)), Ingest(cfg, w.store, e.d, e.now, newId, e.ground);
      && Attributed(cfg, w, Detect(e, newId)) == r && v.store == s1
      && (r.Some? ==> r.value in s1.tracks && r.value in v.log && v.log[r.value] == Logged(w.log, r.value) + [e])
  {
    hide Ingest;
  }

  // ---- What else a detection changes ----

  lemma ReopenClosed(s: Store, id: Id, m: string)
    requires SoundBut(s, m) && id in s.tracks
    ensures var r := Reopen(s, id);
      && r.all == s.all + {id} && id in r.tracks
      && (forall k :: k in r.closedBySerial <==> k in s.closedBySerial && s.closedBySerial[k] != id)
      && (forall k :: k in r.closedByMac <==> k in s.closedByMac && s.closedByMac[k] != id)
      && (forall k :: k in r.closedBySerial ==> r.closedBySerial[k] == s.closedBySerial[k])
      && (forall k :: k in r.closedByMac ==> r.closedByMac[k] == s.closedByMac[k])
  {
    hide LiveSerials, LiveMacs, NamedMacs, BindAll;
  }

  /** Live, closed: what is live after attribution, and what is left of the closed indexes. */
  ghost predicate Moved(s: Store, s1: Store, id: Id) {
    && s1.all == s.all + {id}
    && (forall k :: k in s1.closedBySerial <==> k in s.closedBySerial && s.closedBySerial[k] != id)
    && (forall k :: k in s1.closedByMac <==> k in s.closedByMac && s.closedByMac[k] != id)
    && (forall k :: k in s1.closedBySerial ==> s1.closedBySerial[k] == s.closedBySerial[k])
    && (forall k :: k in s1.closedByMac ==> s1.closedByMac[k] == s.closedByMac[k])
  }

  lemma ClaimSame(s: Store, id: Id, d: Detection)
    requires WellFormed(s) && id in s.tracks
    ensures var r := Claim(s, id, d);
      r.all == s.all && r.closedBySerial == s.closedBySerial && r.closedByMac == s.closedByMac
  {}

  lemma LiveMoved(s: Store, s1: Store, id: Id, m: string)
    requires SoundBut(s1, m) && id in s.all && s1.all == s.all
    requires s1.closedBySerial == s.closedBySerial && s1.closedByMac == s.closedByMac
    ensures Moved(s, s1, id)
  {}

  lemma MintMoved(s: Store, d: Detection, at: int, newId: Id)
    requires WellFormed(s) && newId !in s.tracks
    ensures Moved(s, Mint(s, d, at, newId), newId)
  {}

  lemma AttributeMoves(cfg: Config, s: Store, d: Detection, now: int, newId: Id)
    requires Sound(s) && newId !in s.tracks
    ensures var (s1, r) := Attribute(cfg, s, d, now, newId); r.Some? ==> Moved(s, s1, r.value)
  {
    hide Sound, SoundBut, Live, Claim, Mint, Reopen, WellFormed, Resumes, ResolveClosed;
    var at := Seen(d, now);
    LiveRebinds(cfg, s, d, at);
    LiveKeeps(cfg, s, d, at);
    LiveSame(cfg, s, d, at);
    var (s1, live) := Live(cfg, s, d, at);
    if live.Some? {
      LiveMoved(s, s1, live.value, d.mac);
      ClaimSame(s1, live.value, d);
    } else {
      ResolvesInto(s1, d.serial, d.mac);
      var c := ResolveClosed(s1, d.serial, d.mac);
      if c.Some? && Resumes(cfg, s1.tracks[c.value], d, at) {
        ReopenClosed(s1, c.value, d.mac);
        ClaimSame(Reopen(s1, c.value), c.value, d);
      } else if d.serial != "" || d.mac != "" {
        MintMoved(s1, d, at, newId);
        ClaimSame(Mint(s1, d, at, newId), newId, d);
      }
    }
  }

  /** The track without a serial that the detection's MAC leads to, when its serial leads nowhere: it is given the serial
      even if its flight turns out to be over. */
  function Promoted(s: Store, d: Detection): Option<Id> {
    if d.serial != "" && d.serial !in s.bySerial && d.mac != "" && d.mac in s.byMac
       && s.byMac[d.mac] in s.tracks && s.tracks[s.byMac[d.mac]].serial == ""
    then Some(s.byMac[d.mac]) else None
  }

  predicate Renamed(s: Store, x: Id, u: Track, d: Detection)
    requires x in s.tracks
  {
    u == if Promoted(s, d) == Some(x) then s.tracks[x].(serial := d.serial) else s.tracks[x]
  }

  ghost predicate AllRenamed(s: Store, s1: Store, d: Detection) {
    s1.tracks.Keys == s.tracks.Keys && forall x :: x in s.tracks ==> Renamed(s, x, s1.tracks[x], d)
  }

  lemma LiveRenames(cfg: Config, s: Store, d: Detection, seen: int)
    requires WellFormed(s)
    ensures AllRenamed(s, Live(cfg, s, d, seen).0, d)
  {
    hide Resumes, FlightIsOver;
  }

  lemma BindMacNames(s: Store, id: Id, mac: string)
    requires WellFormed(s) && id in s.tracks
    ensures var t := s.tracks[id];
      BindMac(s, id, mac).tracks ==
        s.tracks[id := t.(macs := if mac == "" || mac in t.macs then t.macs else t.macs + [mac])]
  {
    var t := s.tracks[id];
    assert s.tracks[id := t] == s.tracks;
  }

  lemma ClaimNames(s: Store, id: Id, d: Detection)
    requires WellFormed(s) && id in s.tracks
    ensures var r := Claim(s, id, d); var t, u := s.tracks[id], r.tracks[id];
      && r.tracks == s.tracks[id := u]
      && u == t.(serial := if t.serial == "" then d.serial else t.serial,
                 macs := if d.mac == "" || d.mac in t.macs then t.macs else t.macs + [d.mac])
  {
    hide WellFormed, BindMac;
    BindMacNames(s, id, d.mac);
  }

  lemma ReopenTracks(s: Store, id: Id)
    requires WellFormed(s) && id in s.tracks
    ensures Reopen(s, id).tracks == s.tracks[id := s.tracks[id].(state := Coasting)]
  {}

  /** The names a track bears once a detection has gone to it: its own serial, or the detection's if it had none; its MACs,
      and the detection's. */
  predicate Bears(before: Option<Track>, u: Track, d: Detection) {
    var serial := if before.Some? then before.value.serial else "";
    var macs := if before.Some? then before.value.macs else [];
    && u.serial == (if serial == "" then d.serial else serial)
    && u.macs == if d.mac == "" || d.mac in macs then macs else macs + [d.mac]
  }

  function TrackAt(s: Store, id: Id): Option<Track> {
    if id in s.tracks then Some(s.tracks[id]) else None
  }

  lemma AttributeNames(cfg: Config, s: Store, d: Detection, now: int, newId: Id)
    requires WellFormed(s) && newId !in s.tracks
    ensures var (s1, r) := Attribute(cfg, s, d, now, newId);
      && (forall x :: x in s.tracks ==> x in s1.tracks)
      && (r.Some? ==> Bears(TrackAt(s, r.value), s1.tracks[r.value], d))
      && (forall x :: x in s.tracks && Some(x) != r ==> Renamed(s, x, s1.tracks[x], d))
  {
    hide Live, Claim, Mint, Reopen, WellFormed, Resumes, ResolveClosed;
    var at := Seen(d, now);
    LiveRenames(cfg, s, d, at);
    var (s1, live) := Live(cfg, s, d, at);
    if live.Some? {
      ClaimNames(s1, live.value, d);
    } else {
      ResolvesInto(s1, d.serial, d.mac);
      var c := ResolveClosed(s1, d.serial, d.mac);
      if c.Some? && Resumes(cfg, s1.tracks[c.value], d, at) {
        ReopenTracks(s1, c.value);
        ClaimNames(Reopen(s1, c.value), c.value, d);
      } else if d.serial != "" || d.mac != "" {
        MintMeasures(s1, d, at, newId);
        ClaimNames(Mint(s1, d, at, newId), newId, d);
      }
    }
  }

  /** Main: a detection makes the track it goes to live and takes it, alone, out of the closed indexes; gives it the names
      it lacks; and changes no other track but the one it promotes on the way. */
  lemma DetectMoves(cfg: Config, s: Store, d: Detection, now: int, newId: Id, ground: Option<Ground>)
    requires Sound(s) && newId !in s.tracks
    ensures var (s1, r) := Ingest(cfg, s, d, now, newId, ground);
      r.Some? ==>
        && Moved(s, s1, r.value)
        && Bears(TrackAt(s, r.value), s1.tracks[r.value], d)
        && forall x :: x in s.tracks && x != r.value ==> x in s1.tracks && Renamed(s, x, s1.tracks[x], d)
  {
    hide Sound, Attribute, Fold, NextState, Moved, Renamed, TrackAt;
    if d.class_ != CLASS_ADSB {
      AttributeMoves(cfg, s, d, now, newId);
      AttributeNames(cfg, s, d, now, newId);
      var (s1, found) := Attribute(cfg, s, d, now, newId);
      if found.Some? {
        MovedToo(s, s1, found.value, s1.tracks[found.value := Folded(cfg, s1.tracks[found.value], d, now, ground)]);
      }
    }
  }

  lemma MovedToo(s: Store, s1: Store, id: Id, tracks: map<Id, Track>)
    requires Moved(s, s1, id)
    ensures Moved(s, s1.(tracks := tracks), id)
  {}
}
