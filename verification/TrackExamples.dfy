/**
 Runs from the empty store that reach what the store's comments rule out: a live track nothing can
 find, and a flight rejoined or not by when the reaper ran. For any lifecycle but the stated bounds.
 */
module TrackExamples {
  import opened Options
  import opened Detections
  import opened TrackRecords
  import opened TrackIndex
  import opened TrackSoundness
  import opened TrackRuns
  import opened TrackReaping
  import opened TrackFinding

  /** A detection of the given class, identities and fix, with nothing else in it. */
  function Heard(at: int, class_: string, serial: string, mac: string, position: Option<Fix>): Detection {
    Detection(at, "wifi-0", "wifi", class_, None, serial, mac, "", "", "", position, None, None)
  }

  function NewcomerTrack(d: Detection, seen: int): Track {
    NewTrack(d, seen).(macs := if d.mac == "" then [] else [d.mac])
  }

  /** The store with one more track, of a detection whose identities led nowhere. */
  function With(s: Store, d: Detection, newId: Id, t: Track): Store {
    s.(tracks := s.tracks[newId := t],
       all := s.all + {newId},
       bySerial := if d.serial == "" then s.bySerial else s.bySerial[d.serial := newId],
       byMac := if d.mac == "" then s.byMac else s.byMac[d.mac := newId])
  }

  lemma Overwritten<V>(m: map<Id, V>, k: Id, a: V, b: V)
    ensures m[k := a][k := b] == m[k := b]
  {}

  lemma ClaimsMinted(s: Store, d: Detection, seen: int, newId: Id)
    requires WellFormed(s) && newId !in s.tracks
    ensures Claim(Mint(s, d, seen, newId), newId, d) == With(s, d, newId, NewcomerTrack(d, seen))
  {
    var t := NewTrack(d, seen);
    Overwritten(s.tracks, newId, t, t.(macs := [d.mac]));
    assert WithMac([], d.mac) == [d.mac];
  }

  /** A detection whose identities lead nowhere starts a track, found by them. */
  lemma Starts(cfg: Config, s: Store, d: Detection, now: int, newId: Id)
    requires WellFormed(s) && newId !in s.tracks && d.class_ != CLASS_ADSB && (d.serial != "" || d.mac != "")
    requires d.serial !in s.bySerial && d.mac !in s.byMac && d.serial !in s.closedBySerial && d.mac !in s.closedByMac
    ensures Ingest(cfg, s, d, now, newId, None) ==
            (With(s, d, newId, Folded(cfg, NewcomerTrack(d, Seen(d, now)), d, now, None)), Some(newId))
  {
    var seen := Seen(d, now);
    ClaimsMinted(s, d, seen, newId);
    hide Folded, Claim, Mint, NewTrack, WellFormed;
    assert Attribute(cfg, s, d, now, newId) == (With(s, d, newId, NewcomerTrack(d, seen)), Some(newId));
    Overwritten(s.tracks, newId, NewcomerTrack(d, seen), Folded(cfg, NewcomerTrack(d, seen), d, now, None));
  }

  /** What the first fold leaves of a track, as far as its lifecycle goes. */
  lemma JustHeard(cfg: Config, d: Detection, now: int)
    requires d.ts == now > 0 && cfg.lifecycle.closeAfter >= 0
    ensures var t := Folded(cfg, NewcomerTrack(d, now), d, now, None);
      && t.serial == d.serial && t.macs == (if d.mac == "" then [] else [d.mac])
      && t.data.lastSeen == now && !t.state.Closed?
      && t.data.history == (if d.position.None? then [] else [PositionOf(d, None)])
  {
    hide NoisyOr, WithEvidence, WithReceiver, PositionOf, MayConfirm, SamePlace;
  }

  lemma NothingStored()
    ensures WellFormed(EMPTY)
  {}

  lemma RunStarts()
    ensures forall cfg :: IsRun(cfg, [START], [])
  {}

  lemma Extended(cfg: Config, ws: seq<World>, steps: seq<Step>, step: Step)
    requires IsRun(cfg, ws, steps) && Enabled(ws[|ws| - 1], step)
    ensures IsRun(cfg, ws + [Next(cfg, ws[|ws| - 1], step)], steps + [step])
  {
    hide Next, Enabled;
  }

  // ---- A live track nothing can find ----

  /** A flight by serial and MAC, quiet past CloseAfter: its aircraft is heard again on the ground. */
  lemma Supersedes(cfg: Config, s: Store, x: Id, d: Detection, now: int, newId: Id)
    requires WellFormed(s) && x in s.tracks && newId !in s.tracks && d.class_ != CLASS_ADSB
    requires d.serial != "" && d.mac != "" && d.position.None?
    requires s.bySerial == map[d.serial := x] && s.byMac == map[d.mac := x]
    requires s.tracks[x].serial == d.serial && s.tracks[x].macs == [d.mac]
    requires s.closedBySerial == map[] && s.closedByMac == map[]
    requires Seen(d, now) - s.tracks[x].data.lastSeen > cfg.lifecycle.closeAfter
    ensures WellFormed(s.(bySerial := map[], byMac := map[]))
    ensures Ingest(cfg, s, d, now, newId, None) ==
            (With(s.(bySerial := map[], byMac := map[]), d, newId, Folded(cfg, NewcomerTrack(d, Seen(d, now)), d, now, None)),
             Some(newId))
  {
    var seen, bare := Seen(d, now), s.(bySerial := map[], byMac := map[]);
    assert Unindex(s, x) == bare by { assert d.mac in SetOf([d.mac]); }
    assert s.byMac[d.mac := x] == s.byMac;
    assert Live(cfg, s, d, seen) == (bare, None);
    assert Live(cfg, bare, d, seen) == (bare, None);
    Starts(cfg, bare, d, now, newId);
    hide Folded, Live, Mint, Claim, With;
    assert Attribute(cfg, s, d, now, newId) == Attribute(cfg, bare, d, now, newId);
  }

  lemma NotEnded(cfg: Config, t: Track, now: int)
    requires !t.state.Closed?
    ensures UpdateState(t, now, cfg.lifecycle).state.Closed? <==> now - t.data.lastSeen > cfg.lifecycle.closeAfter
  {}

  /** Two flights of one aircraft, and one Reap that ends the first: the second is live, and neither its serial nor its MAC
      leads to it. */
  lemma SuccessorReached(cfg: Config) returns (ws: seq<World>, steps: seq<Step>)
    requires cfg.lifecycle.closeAfter >= 0
    ensures IsRun(cfg, ws, steps) && |steps| == 3
    ensures var s := ws[3].store;
      && "y" in s.all && "y" in s.tracks && s.tracks["y"].serial == "A" && s.tracks["y"].macs == ["M"]
      && LiveAt(s, Serial("A")) == None && LiveAt(s, Mac("M")) == None
  {
    hide IsRun, Folded, Ingest, Reap, NextState, WellFormed, SoundBut, Corroborated, Clocked;
    var t := cfg.lifecycle.closeAfter + 2;
    var d1, d2 := Heard(1, "A", "A", "M", None), Heard(t, "A", "A", "M", None);
    var f1, f2 := Folded(cfg, NewcomerTrack(d1, 1), d1, 1, None), Folded(cfg, NewcomerTrack(d2, t), d2, t, None);
    JustHeard(cfg, d1, 1);
    JustHeard(cfg, d2, t);
    NothingStored();
    RunStarts();
    ws, steps := [START], [];

    Starts(cfg, EMPTY, d1, 1, "x");
    var s1 := With(EMPTY, d1, "x", f1);
    Extended(cfg, ws, steps, Detect(Entry(d1, 1, None), "x"));
    var w1 := Next(cfg, START, Detect(Entry(d1, 1, None), "x"));
    assert w1.store == s1;
    ws, steps := ws + [w1], steps + [Detect(Entry(d1, 1, None), "x")];

    Supersedes(cfg, s1, "x", d2, t, "y");
    var s2 := With(s1.(bySerial := map[], byMac := map[]), d2, "y", f2);
    Extended(cfg, ws, steps, Detect(Entry(d2, t, None), "y"));
    var w2 := Next(cfg, w1, Detect(Entry(d2, t, None), "y"));
    assert w2.store == s2;
    ws, steps := ws + [w2], steps + [Detect(Entry(d2, t, None), "y")];

    assert Lists(["x", "y"], s2.all);
    Extended(cfg, ws, steps, Tick(t, ["x", "y"]));
    RunsStayValid(cfg, ws, steps, 2);
    ReapKeepsSound(cfg, s2, t, ["x", "y"]);
    NotEnded(cfg, f1, t);
    NotEnded(cfg, f2, t);
    assert Ends(cfg, s2, t, "x") && s2.tracks["x"].serial == "A" && "M" in s2.tracks["x"].macs;
    EntriesTaken(cfg, s2, t, ["x", "y"], "A");
    EntriesTaken(cfg, s2, t, ["x", "y"], "M");
    ws, steps := ws + [Next(cfg, w2, Tick(t, ["x", "y"]))], steps + [Tick(t, ["x", "y"])];
  }

  // ---- A live track hidden by another's detection ----

  /** A detection whose serial leads to one live track and whose MAC to another goes to the first, and takes the MAC along. */
  lemma Rebinds(cfg: Config, s: Store, x: Id, y: Id, d: Detection, now: int, newId: Id)
    requires WellFormed(s) && newId !in s.tracks && d.class_ != CLASS_ADSB && d.serial != "" && d.mac != "" && x != y
    requires x in s.tracks && y in s.tracks && d.serial in s.bySerial && s.bySerial[d.serial] == y
    requires s.tracks[y].serial == d.serial && !FlightIsOver(cfg.lifecycle, s.tracks[y], Seen(d, now))
    ensures var (r, found) := Ingest(cfg, s, d, now, newId, None);
      && found == Some(y) && r.all == s.all && r.bySerial == s.bySerial && r.byMac == s.byMac[d.mac := y]
      && x in r.tracks && r.tracks[x] == s.tracks[x]
  {
    hide Folded, WithMac;
    assert Live(cfg, s, d, Seen(d, now)) == (s.(byMac := s.byMac[d.mac := y]), Some(y));
    assert s.byMac[d.mac := y][d.mac := y] == s.byMac[d.mac := y];
  }

  /** A track without a serial, whose only MAC another aircraft's detection brings: it stays live, and nothing leads to it. */
  lemma HiddenByADetection(cfg: Config) returns (ws: seq<World>, steps: seq<Step>)
    requires cfg.lifecycle.closeAfter >= 0
    ensures IsRun(cfg, ws, steps) && |steps| == 3 && forall i :: 0 <= i < 3 ==> steps[i].Detect?
    ensures var s := ws[3].store;
      && "x" in s.all && "x" in s.tracks && s.tracks["x"].serial == "" && s.tracks["x"].macs == ["M"]
      && s.bySerial == map["A" := "y"] && s.byMac == map["M" := "y", "N" := "y"]
  {
    hide IsRun, Folded, Ingest, NextState;
    var d1, d2, d3 := Heard(1, "A", "", "M", None), Heard(1, "A", "A", "N", None), Heard(1, "A", "A", "M", None);
    var f1, f2 := Folded(cfg, NewcomerTrack(d1, 1), d1, 1, None), Folded(cfg, NewcomerTrack(d2, 1), d2, 1, None);
    JustHeard(cfg, d1, 1);
    JustHeard(cfg, d2, 1);
    RunStarts();
    ws, steps := [START], [];

    Starts(cfg, EMPTY, d1, 1, "x");
    var s1 := With(EMPTY, d1, "x", f1);
    Extended(cfg, ws, steps, Detect(Entry(d1, 1, None), "x"));
    var w1 := Next(cfg, START, Detect(Entry(d1, 1, None), "x"));
    assert w1.store == s1;
    ws, steps := ws + [w1], steps + [Detect(Entry(d1, 1, None), "x")];

    Starts(cfg, s1, d2, 1, "y");
    var s2 := With(s1, d2, "y", f2);
    Extended(cfg, ws, steps, Detect(Entry(d2, 1, None), "y"));
    var w2 := Next(cfg, w1, Detect(Entry(d2, 1, None), "y"));
    assert w2.store == s2;
    ws, steps := ws + [w2], steps + [Detect(Entry(d2, 1, None), "y")];

    Rebinds(cfg, s2, "x", "y", d3, 1, "z");
    Extended(cfg, ws, steps, Detect(Entry(d3, 1, None), "z"));
    ws, steps := ws + [Next(cfg, w2, Detect(Entry(d3, 1, None), "z"))], steps + [Detect(Entry(d3, 1, None), "z")];
  }

  // ---- A flight rejoined, or not ----

  /** Evidence of class C alone never confirms. */
  lemma StaysTentative(cfg: Config, d: Detection, now: int)
    requires d.ts == now > 0 && cfg.lifecycle.closeAfter >= 0 && d.class_ == "C"
    ensures Folded(cfg, NewcomerTrack(d, now), d, now, None).state.Tentative?
  {
    hide NoisyOr, WithReceiver, PositionOf, Trail;
    var m := Fold(cfg, NewcomerTrack(d, now).data, d, now, None);
    assert m.evidence.Keys == {"C"};
    assert !Identified(m);
  }

  /** An aircraft first heard on the ground, and 100 m up. */
  function OnTheGround(at: int): Detection {
    Heard(at, "C", "A", "M", Some(Fix(0.0, 0.0, Some(0.0), Some(0.0))))
  }

  function InTheAir(at: int): Detection {
    Heard(at, "C", "A", "M", Some(Fix(0.0, 0.0, Some(100.0), Some(100.0))))
  }

  lemma ResumesInTheAir(cfg: Config, t: Track, at: int)
    requires t.data.history == [PositionOf(OnTheGround(1), None)] && t.data.lastSeen == 1
    requires cfg.lifecycle.resumeWithin > 0 && at - 1 <= cfg.lifecycle.resumeWithin
    ensures Resumes(cfg, t, InTheAir(at), at)
  {}

  /** A detection whose serial leads to a flight that takes it. */
  lemma GoesToLive(cfg: Config, s: Store, x: Id, d: Detection, now: int, newId: Id)
    requires WellFormed(s) && newId !in s.tracks && x in s.tracks
    requires d.serial != "" && d.serial in s.bySerial && s.bySerial[d.serial] == x
    requires StillFlying(cfg, s.tracks[x], d, Seen(d, now))
    ensures Attribute(cfg, s, d, now, newId).1 == Some(x)
  {
    hide Attribute, Live, Resolve, StillFlying, WellFormed;
    AttributeIs(cfg, s, d, now, newId);
    LiveIs(cfg, s, d, Seen(d, now));
    ResolveIs(s, d.serial, d.mac);
  }

  /** After a Reap, it starts a track: the flight was TENTATIVE, or the detection does not resume it. */
  lemma GoesToNew(cfg: Config, s: Store, x: Id, d: Detection, now: int, newId: Id)
    requires Sound(s) && newId !in s.tracks && s.tracks.Keys == {x} && s.all == {x}
    requires Attribute(cfg, s, d, now, newId).1 == Some(x)
    requires !s.tracks[x].state.Closed? && now - s.tracks[x].data.lastSeen > cfg.lifecycle.closeAfter
    requires s.tracks[x].state.Tentative? || !Resumes(cfg, s.tracks[x], d, Seen(d, now))
    requires s.closedBySerial == map[] && s.closedByMac == map[] && d.mac != ""
    ensures Lists([x], s.all) && newId !in Reap(cfg, s, now, [x]).tracks
    ensures Attribute(cfg, Reap(cfg, s, now, [x]), d, now, newId).1 == Some(newId)
  {
    hide Attribute, Reap, Sound, LiveAfter, ParkedAfter, StillFlying, Resumes;
    assert Lists([x], s.all);
    RejoinsAlone(cfg, s, x, now, [x], d, now, newId);
    AttributeAfterReap(cfg, s, now, [x], d, now, newId);
  }

  /** A first and a second detection in a track's log. */
  lemma Logs(cfg: Config, w: World, e: Entry, newId: Id, id: Id)
    requires Enabled(w, Detect(e, newId)) && Attributed(cfg, w, Detect(e, newId)) == Some(id)
    ensures var v := Next(cfg, w, Detect(e, newId));
      v.store == Ingest(cfg, w.store, e.d, e.now, newId, e.ground).0
      && v.log == w.log[id := if id in w.log then w.log[id] + [e] else [e]]
  {
    hide Ingest, WellFormed;
    assert [] + [e] == [e];
  }

  /** The run of one detection. */
  lemma HeardOnce(cfg: Config, e: Entry) returns (w: World)
    requires e.now == 1 && e.ground.None? && e.d.class_ != CLASS_ADSB && e.d.serial != "" && Seen(e.d, 1) == 1
    ensures IsRun(cfg, [START, w], [Detect(e, "x")]) && w.log == map["x" := [e]]
    ensures w.store == With(EMPTY, e.d, "x", Folded(cfg, NewcomerTrack(e.d, 1), e.d, 1, None))
  {
    hide IsRun, Folded, Attribute, Ingest, PositionOf;
    Starts(cfg, EMPTY, e.d, 1, "x");
    RunStarts();
    Extended(cfg, [START], [], Detect(e, "x"));
    Logs(cfg, START, e, "x", "x");
    w := Next(cfg, START, Detect(e, "x"));
    assert [START] + [w] == [START, w] && [] + [Detect(e, "x")] == [Detect(e, "x")];
  }

  lemma Seconds(cfg: Config, w1: World, e1: Entry, e2: Entry) returns (w2: World)
    requires IsRun(cfg, [START, w1], [Detect(e1, "x")]) && w1.log == map["x" := [e1]]
    requires Enabled(w1, Detect(e2, "y")) && Attributed(cfg, w1, Detect(e2, "y")) == Some("x")
    ensures IsRun(cfg, [START, w1, w2], [Detect(e1, "x"), Detect(e2, "y")]) && w2.log == map["x" := [e1, e2]]
  {
    hide IsRun, Enabled, Attributed, Next;
    Extended(cfg, [START, w1], [Detect(e1, "x")], Detect(e2, "y"));
    Logs(cfg, w1, e2, "y", "x");
    w2 := Next(cfg, w1, Detect(e2, "y"));
    assert [START, w1] + [w2] == [START, w1, w2] && [e1] + [e2] == [e1, e2];
    assert [Detect(e1, "x")] + [Detect(e2, "y")] == [Detect(e1, "x"), Detect(e2, "y")];
    assert map["x" := [e1]]["x" := [e1, e2]] == map["x" := [e1, e2]];
  }

  lemma TickKeepsLog(cfg: Config, w: World, tick: Step)
    requires Enabled(w, tick) && tick.Tick?
    ensures Next(cfg, w, tick).log == w.log
  {
    hide Reap, WellFormed;
  }

  lemma SecondsLater(cfg: Config, w1: World, v2: World, e1: Entry, e2: Entry, tick: Step) returns (v3: World)
    requires IsRun(cfg, [START, w1], [Detect(e1, "x")]) && w1.log == map["x" := [e1]]
    requires tick.Tick? && Enabled(w1, tick) && v2 == Next(cfg, w1, tick)
    requires Enabled(v2, Detect(e2, "y")) && Attributed(cfg, v2, Detect(e2, "y")) == Some("y")
    ensures IsRun(cfg, [START, w1, v2, v3], [Detect(e1, "x"), tick, Detect(e2, "y")])
    ensures v3.log == map["x" := [e1], "y" := [e2]]
  {
    hide IsRun, Enabled, Attributed, Next;
    TickKeepsLog(cfg, w1, tick);
    Extended(cfg, [START, w1], [Detect(e1, "x")], tick);
    assert [START, w1] + [v2] == [START, w1, v2] && [Detect(e1, "x")] + [tick] == [Detect(e1, "x"), tick];
    Extended(cfg, [START, w1, v2], [Detect(e1, "x"), tick], Detect(e2, "y"));
    Logs(cfg, v2, e2, "y", "y");
    v3 := Next(cfg, v2, Detect(e2, "y"));
    assert [START, w1, v2] + [v3] == [START, w1, v2, v3];
    assert [Detect(e1, "x"), tick] + [Detect(e2, "y")] == [Detect(e1, "x"), tick, Detect(e2, "y")];
    assert map["x" := [e1]]["y" := [e2]] == map["x" := [e1], "y" := [e2]];
  }

  /** The same two detections of one aircraft, with and without a Reap between them: without it the second is folded into
      the track of the first, with it into a new one. */
  lemma TentativeForgotten(cfg: Config) returns (ws: seq<World>, vs: seq<World>)
    requires 0 <= cfg.lifecycle.closeAfter < cfg.lifecycle.resumeWithin
    ensures var t := cfg.lifecycle.closeAfter + 2;
            var e1, e2 := Entry(OnTheGround(1), 1, None), Entry(InTheAir(t), t, None);
      && IsRun(cfg, ws, [Detect(e1, "x"), Detect(e2, "y")]) && |ws| == 3
      && ws[2].log == map["x" := [e1, e2]]
      && IsRun(cfg, vs, [Detect(e1, "x"), Tick(t, ["x"]), Detect(e2, "y")]) && |vs| == 4
      && vs[3].log == map["x" := [e1], "y" := [e2]]
  {
    hide IsRun, Folded, Attribute, Reap, PositionOf, Resumes, Heard, MayConfirm;
    var t := cfg.lifecycle.closeAfter + 2;
    var e1, e2 := Entry(OnTheGround(1), 1, None), Entry(InTheAir(t), t, None);
    GroundAndAir(t);
    JustHeard(cfg, e1.d, 1);
    StaysTentative(cfg, e1.d, 1);
    var w1 := HeardOnce(cfg, e1);
    ResumesInTheAir(cfg, w1.store.tracks["x"], t);
    RunsStayValid(cfg, [START, w1], [Detect(e1, "x")], 1);

    GoesToLive(cfg, w1.store, "x", e2.d, t, "y");
    var w2 := Seconds(cfg, w1, e1, e2);
    ws := [START, w1, w2];

    GoesToNew(cfg, w1.store, "x", e2.d, t, "y");
    ReapKeepsSound(cfg, w1.store, t, ["x"]);
    var v2 := Next(cfg, w1, Tick(t, ["x"]));
    var v3 := SecondsLater(cfg, w1, v2, e1, e2, Tick(t, ["x"]));
    vs := [START, w1, v2, v3];
  }

  lemma GroundAndAir(t: int)
    ensures var g, a := OnTheGround(1), InTheAir(t);
      && g.ts == 1 && g.class_ == "C" && g.serial == "A" && g.mac == "M" && g.position.Some?
      && a.ts == t && a.class_ == "C" && a.serial == "A" && a.mac == "M"
  {}

  /** With thresholds of one detection and no span, a class A detection confirms at once. */
  lemma ConfirmsAtOnce(cfg: Config, d: Detection, now: int)
    requires d.ts == now > 0 && d.class_ == "A" && cfg.lifecycle.closeAfter >= 0 && cfg.lifecycle.coastAfter >= 0
    requires cfg.lifecycle.confirmMinDetections <= 1 && cfg.lifecycle.confirmMinSpan <= 0
    ensures Folded(cfg, NewcomerTrack(d, now), d, now, None).state.Confirmed?
  {
    hide NoisyOr, WithReceiver, PositionOf, Trail;
    var m := Fold(cfg, NewcomerTrack(d, now).data, d, now, None);
    assert "A" in m.evidence;
    assert Identified(m);
  }

  /** Two detections stamped at the same instant, the second without a fix, and late. */
  function Fixed(): Detection {
    Heard(1, "A", "A", "M", Some(Fix(0.0, 0.0, Some(0.0), Some(0.0))))
  }

  function Late(): Detection {
    Heard(1, "A", "A", "M", None)
  }

  lemma FixedAndLate()
    ensures var f, l := Fixed(), Late();
      && f.ts == l.ts == 1 && f.class_ == l.class_ == "A" && f.serial == l.serial == "A" && f.mac == l.mac == "M"
      && f.position.Some? && l.position.None?
  {}

  lemma OnTimeByItsStamp(cfg: Config, t: Track)
    requires !t.state.Closed? && t.data.lastSeen == 1 && cfg.lifecycle.closeAfter >= 0
    ensures StillFlying(cfg, t, Late(), 1) && !Resumes(cfg, t, Late(), 1)
  {}

  /** A detection that arrives late, stamped while its flight was on: without a Reap it is folded into the flight; a Reap
      whose clock is ahead of the stamp makes it start a new track, although the flight may be CONFIRMED and remembered. */
  lemma LateForgotten(cfg: Config) returns (ws: seq<World>, vs: seq<World>)
    requires 0 <= cfg.lifecycle.closeAfter
    ensures var t := cfg.lifecycle.closeAfter + 2;
            var e1, e2 := Entry(Fixed(), 1, None), Entry(Late(), t, None);
      && IsRun(cfg, ws, [Detect(e1, "x"), Detect(e2, "y")]) && |ws| == 3
      && ws[2].log == map["x" := [e1, e2]]
      && IsRun(cfg, vs, [Detect(e1, "x"), Tick(t, ["x"]), Detect(e2, "y")]) && |vs| == 4
      && vs[3].log == map["x" := [e1], "y" := [e2]]
      && vs[1] == ws[1] && "x" in ws[1].store.tracks
      && (cfg.lifecycle.confirmMinDetections <= 1 && cfg.lifecycle.confirmMinSpan <= 0 && cfg.lifecycle.coastAfter >= 0 ==>
            ws[1].store.tracks["x"].state.Confirmed?)
  {
    hide IsRun, Folded, Attribute, Reap, PositionOf, Resumes, Heard, MayConfirm, StillFlying;
    var t := cfg.lifecycle.closeAfter + 2;
    var e1, e2 := Entry(Fixed(), 1, None), Entry(Late(), t, None);
    FixedAndLate();
    JustHeard(cfg, e1.d, 1);
    if cfg.lifecycle.confirmMinDetections <= 1 && cfg.lifecycle.confirmMinSpan <= 0 && cfg.lifecycle.coastAfter >= 0 {
      ConfirmsAtOnce(cfg, e1.d, 1);
    }
    var w1 := HeardOnce(cfg, e1);
    OnTimeByItsStamp(cfg, w1.store.tracks["x"]);
    RunsStayValid(cfg, [START, w1], [Detect(e1, "x")], 1);

    GoesToLive(cfg, w1.store, "x", e2.d, t, "y");
    var w2 := Seconds(cfg, w1, e1, e2);
    ws := [START, w1, w2];

    GoesToNew(cfg, w1.store, "x", e2.d, t, "y");
    ReapKeepsSound(cfg, w1.store, t, ["x"]);
    var v2 := Next(cfg, w1, Tick(t, ["x"]));
    var v3 := SecondsLater(cfg, w1, v2, e1, e2, Tick(t, ["x"]));
    vs := [START, w1, v2, v3];
  }
}
