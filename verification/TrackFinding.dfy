/**
 How long an identity goes on leading to a track: exactly which detections and Reaps take a live
 index entry away or lead it elsewhere.
 */
module TrackFinding {
  import opened Options
  import opened Detections
  import opened TrackRecords
  import opened TrackIndex
  import opened TrackSoundness
  import opened TrackRuns
  import opened TrackReaping

  /** The live track a key leads to. */
  function LiveAt(s: Store, key: Key): Option<Id> {
    var m := if key.Serial? then s.bySerial else s.byMac;
    if key.name in m then Some(m[key.name]) else None
  }

  /** The live track a detection is resolved to, if that is its flight. */
  function Kept(cfg: Config, s: Store, d: Detection, seen: int): Option<Id>
    requires WellFormed(s)
  {
    var found := Resolve(s, d.serial, d.mac).1;
    if found.Some? && found.value in s.tracks && StillFlying(cfg, s.tracks[found.value], d, seen) then found else None
  }

  /** The one it is resolved to although that flight is over. */
  function Superseded(cfg: Config, s: Store, d: Detection, seen: int): Option<Id>
    requires WellFormed(s)
  {
    var found := Resolve(s, d.serial, d.mac).1;
    if found.Some? && found.value in s.tracks && !StillFlying(cfg, s.tracks[found.value], d, seen) then found else None
  }

  /** The remembered flight it reopens. */
  ghost function Reopened(cfg: Config, s: Store, d: Detection, seen: int): Option<Id>
    requires WellFormed(s)
  {
    if Kept(cfg, s, d, seen).Some? then None else Revives(cfg, s, d, seen)
  }

  predicate CarriedBy(s: Store, id: Option<Id>, key: Key) {
    id.Some? && id.value in s.tracks && Carries(s.tracks[id.value], key)
  }

  // ---- Step by step ----

  /** Tracks keep their names, except that one without a serial may be given one that led nowhere. */
  ghost predicate SameNames(s: Store, s1: Store) {
    && s.tracks.Keys <= s1.tracks.Keys
    && (forall x :: x in s.tracks ==> s1.tracks[x].macs == s.tracks[x].macs)
    && (forall x :: x in s.tracks && s.tracks[x].serial != "" ==> s1.tracks[x].serial == s.tracks[x].serial)
    && (forall x :: x in s.tracks && s.tracks[x].serial == "" && s1.tracks[x].serial != "" ==>
          s1.tracks[x].serial !in s.bySerial)
  }

  /** Resolution leads the detection's own MAC to the track it finds, and gives a track without a serial the detection's;
      every other entry, MAC list and serial stays. */
  lemma ResolveEntries(s: Store, d: Detection, key: Key)
    requires Sound(s) && LiveAt(s, key).Some?
    ensures var s1 := Resolve(s, d.serial, d.mac).0;
      && (key != Mac(d.mac) ==> LiveAt(s1, key) == LiveAt(s, key))
      && SameNames(s, s1)
  {
    hide ParkedSerials, ParkedMacs, NamedMacs;
  }

  lemma UnindexEntries(s: Store, id: Id, key: Key)
    requires WellFormed(s) && id in s.tracks && key.name != ""
    ensures LiveAt(Unindex(s, id), key) == if Carries(s.tracks[id], key) then None else LiveAt(s, key)
  {}

  lemma ReopenEntries(s: Store, id: Id, key: Key)
    requires WellFormed(s) && id in s.tracks && key.name != ""
    ensures LiveAt(Reopen(s, id), key) == if Carries(s.tracks[id], key) then Some(id) else LiveAt(s, key)
    ensures Reopen(s, id).tracks[id].serial == s.tracks[id].serial
  {
    hide Release;
  }

  lemma MintEntries(s: Store, d: Detection, seen: int, newId: Id, key: Key)
    requires WellFormed(s) && newId !in s.tracks && key.name != ""
    ensures LiveAt(Mint(s, d, seen, newId), key) == if key == Serial(d.serial) then Some(newId) else LiveAt(s, key)
    ensures Mint(s, d, seen, newId).tracks[newId].serial == d.serial
  {}

  /** Claiming leads the MAC, and a late serial, to the track. */
  lemma ClaimEntries(s: Store, id: Id, d: Detection, key: Key)
    requires WellFormed(s) && id in s.tracks && key.name != ""
    ensures LiveAt(Claim(s, id, d), key) ==
            if key == Mac(d.mac) || (key == Serial(d.serial) && s.tracks[id].serial == "") then Some(id) else LiveAt(s, key)
  {}

  /** Names after resolution and, for a flight that is over, unindexing. */
  lemma LiveNames(cfg: Config, s: Store, d: Detection, seen: int, key: Key)
    requires Sound(s) && LiveAt(s, key).Some?
    ensures SameNames(s, Live(cfg, s, d, seen).0)
  {
    ResolveEntries(s, d, key);
    hide Sound, Resolve, Resumes, LiveAt, FlightIsOver;
  }

  lemma LiveEntries(cfg: Config, s: Store, d: Detection, seen: int, key: Key)
    requires Sound(s) && LiveAt(s, key).Some? && key != Mac(d.mac)
    ensures LiveAt(Live(cfg, s, d, seen).0, key) ==
            if CarriedBy(s, Superseded(cfg, s, d, seen), key) then None else LiveAt(s, key)
    ensures Live(cfg, s, d, seen).1 == Kept(cfg, s, d, seen)
  {
    hide Sound, Resolve, Resumes, LiveAt, FlightIsOver, SameNames, Carries, Unindex, WellFormed;
    NamedKeys(s, key);
    ResolveEntries(s, d, key);
    LiveIs(cfg, s, d, seen);
    ResolveRebinds(s, d.serial, d.mac);
    var (s1, found) := Resolve(s, d.serial, d.mac);
    SameFlying(cfg, s, s1, d, seen);
    hide OnlyRebinds, SameMeasures;
    if found.Some? {
      UnindexEntries(s1, found.value, key);
      SameKeys(s, s1, found.value, key);
    }
  }

  lemma NamedKeys(s: Store, key: Key)
    requires Sound(s) && LiveAt(s, key).Some?
    ensures key.name != "" && LiveAt(s, key).value in s.all && LiveAt(s, key).value in s.tracks
    ensures Carries(s.tracks[LiveAt(s, key).value], key)
  {}

  /** A promotion gives a track no key that already leads somewhere. */
  lemma SameKeys(s: Store, s1: Store, x: Id, key: Key)
    requires SameNames(s, s1) && x in s.tracks && LiveAt(s, key).Some? && key.name != ""
    ensures Carries(s1.tracks[x], key) == Carries(s.tracks[x], key)
  {}

  lemma ReviveEntries(cfg: Config, s: Store, d: Detection, seen: int, key: Key)
    requires Sound(s) && LiveAt(s, key).Some? && key != Mac(d.mac) && Kept(cfg, s, d, seen).None?
    ensures var s1 := Live(cfg, s, d, seen).0; var (s2, known) := Revive(cfg, s1, d, seen);
      && known == Reopened(cfg, s, d, seen)
      && LiveAt(s2, key) == (if CarriedBy(s, known, key) then known else LiveAt(s1, key))
  {
    hide Sound, Live, Resolve, Resumes, LiveAt, Reopen, SameNames, Carries, Kept, Superseded, WellFormed, SoundBut;
    NamedKeys(s, key);
    LiveEntries(cfg, s, d, seen, key);
    LiveNames(cfg, s, d, seen, key);
    LiveRebinds(cfg, s, d, seen);
    ResolvesInto(s, d.serial, d.mac);
    var s1 := Live(cfg, s, d, seen).0;
    var c := ResolveClosed(s, d.serial, d.mac);
    assert ResolveClosed(s1, d.serial, d.mac) == c;
    if c.Some? {
      SameResumes(cfg, s.tracks[c.value], s1.tracks[c.value], d, seen);
      ReopenEntries(s1, c.value, key);
      SameKeys(s, s1, c.value, key);
    }
  }

  // ---- One detection ----

  /** The detection takes the key away from where it leads: it is a key of the flight superseded or of the one reopened, or
      it is the detection's MAC and led elsewhere than to the flight the detection keeps to. */
  ghost predicate DetectionMoves(cfg: Config, s: Store, d: Detection, now: int, key: Key)
    requires WellFormed(s)
  {
    var seen := Seen(d, now);
    d.class_ != CLASS_ADSB &&
    (|| CarriedBy(s, Superseded(cfg, s, d, seen), key)
     || CarriedBy(s, Reopened(cfg, s, d, seen), key)
     || (key == Mac(d.mac) && Kept(cfg, s, d, seen) != LiveAt(s, key)))
  }

  lemma ReopenedParked(cfg: Config, s: Store, d: Detection, seen: int)
    requires Sound(s)
    ensures var c := Reopened(cfg, s, d, seen); c.Some? ==> c.value !in s.all
  {
    hide Kept, Resumes, LiveSerials, LiveMacs, NamedMacs;
  }

  /** The detection's own MAC leads to whatever track it went to. */
  lemma OwnMacMoves(cfg: Config, s: Store, d: Detection, now: int, newId: Id)
    requires Sound(s) && newId !in s.tracks && LiveAt(s, Mac(d.mac)).Some?
    ensures var (s1, r) := Attribute(cfg, s, d, now, newId); var seen := Seen(d, now);
      && LiveAt(s1, Mac(d.mac)) == r
      && (r == LiveAt(s, Mac(d.mac)) <==> Kept(cfg, s, d, seen) == LiveAt(s, Mac(d.mac)))
      && (Kept(cfg, s, d, seen).Some? ==> Superseded(cfg, s, d, seen).None? && Reopened(cfg, s, d, seen).None?)
  {
    var seen := Seen(d, now);
    NamedKeys(s, Mac(d.mac));
    AttributeIs(cfg, s, d, now, newId);
    LiveIs(cfg, s, d, seen);
    ReopenedParked(cfg, s, d, seen);
    ClaimedMac(cfg, s, d, now, newId);
    hide Sound, Attribute, Live, Resolve, Revives, StillFlying, LiveAt;
  }

  lemma ClaimedMac(cfg: Config, s: Store, d: Detection, now: int, newId: Id)
    requires Sound(s) && newId !in s.tracks && d.mac != ""
    ensures var (s1, r) := Attribute(cfg, s, d, now, newId); LiveAt(s1, Mac(d.mac)) == r
  {
    hide Sound, Live, Revive, Mint, Claim, LiveAt, SoundBut;
    var seen := Seen(d, now);
    var (s1, live) := Live(cfg, s, d, seen);
    var (s2, known) := if live.Some? then (s1, live) else Revive(cfg, s1, d, seen);
    var s3 := if known.Some? then s2 else Mint(s2, d, seen, newId);
    ClaimEntries(s3, if known.Some? then known.value else newId, d, Mac(d.mac));
  }

  /** Any other key, when the detection keeps to a live flight. */
  lemma KeptMoves(cfg: Config, s: Store, d: Detection, now: int, newId: Id, key: Key)
    requires Sound(s) && newId !in s.tracks && LiveAt(s, key).Some? && key != Mac(d.mac)
    requires Kept(cfg, s, d, Seen(d, now)).Some?
    ensures LiveAt(Attribute(cfg, s, d, now, newId).0, key) == LiveAt(s, key)
  {
    var seen := Seen(d, now);
    var id := Kept(cfg, s, d, seen).value;
    NamedKeys(s, key);
    LiveEntries(cfg, s, d, seen, key);
    SerialFound(cfg, s, d, seen, key);
    hide Sound, Live, Claim, Resolve, StillFlying, LiveAt, Carries, SoundBut;
    ClaimEntries(Live(cfg, s, d, seen).0, id, d, key);
  }

  /** A serial that leads somewhere is the serial of the track it leads to. */
  lemma SerialFound(cfg: Config, s: Store, d: Detection, seen: int, key: Key)
    requires Sound(s) && LiveAt(s, key).Some?
    ensures key == Serial(d.serial) ==>
      && Resolve(s, d.serial, d.mac).1 == LiveAt(s, key)
      && LiveAt(s, key).value in s.tracks && s.tracks[LiveAt(s, key).value].serial == d.serial && d.serial != ""
  {}

  /** Any other key, when it does not. */
  lemma OtherMoves(cfg: Config, s: Store, d: Detection, now: int, newId: Id, key: Key)
    requires Sound(s) && newId !in s.tracks && LiveAt(s, key).Some? && key != Mac(d.mac)
    requires Kept(cfg, s, d, Seen(d, now)).None?
    ensures var (s1, r) := Attribute(cfg, s, d, now, newId); var seen := Seen(d, now);
      LiveAt(s1, key) != LiveAt(s, key) <==>
        CarriedBy(s, Superseded(cfg, s, d, seen), key) || CarriedBy(s, Reopened(cfg, s, d, seen), key)
  {
    var seen := Seen(d, now);
    NamedKeys(s, key);
    LiveEntries(cfg, s, d, seen, key);
    ReviveEntries(cfg, s, d, seen, key);
    ReopenedParked(cfg, s, d, seen);
    SerialFound(cfg, s, d, seen, key);
    hide Sound, Live, Revive, Mint, Claim, Resolve, StillFlying, LiveAt, SoundBut, SameNames, Revives;
    var s1 := Live(cfg, s, d, seen).0;
    var (s2, known) := Revive(cfg, s1, d, seen);
    if known.Some? {
      ClaimEntries(s2, known.value, d, key);
    } else {
      MintEntries(s2, d, seen, newId, key);
      ClaimEntries(Mint(s2, d, seen, newId), newId, d, key);
    }
  }

  /** Main: a detection takes a live key away from where it leads exactly in these cases, and never in another. */
  lemma IngestMoves(cfg: Config, s: Store, d: Detection, now: int, newId: Id, ground: Option<Ground>, key: Key)
    requires Sound(s) && newId !in s.tracks && LiveAt(s, key).Some?
    ensures LiveAt(Ingest(cfg, s, d, now, newId, ground).0, key) != LiveAt(s, key) <==> DetectionMoves(cfg, s, d, now, key)
  {
    hide Sound, Attribute, Resolve, StillFlying, Revives, Fold, NextState, SoundBut, CarriedBy;
    var seen := Seen(d, now);
    if d.class_ != CLASS_ADSB {
      NoneCarries(s, key);
      if key == Mac(d.mac) {
        OwnMacMoves(cfg, s, d, now, newId);
      } else if Kept(cfg, s, d, seen).Some? {
        KeptMoves(cfg, s, d, now, newId, key);
      } else {
        OtherMoves(cfg, s, d, now, newId, key);
      }
    }
  }

  lemma NoneCarries(s: Store, key: Key)
    ensures !CarriedBy(s, None, key)
  {}

  // ---- Whole runs ----

  /** A Reap takes the key away: it ends a live track that carries it, the one it leads to or a superseded one. */
  ghost predicate ReapMoves(cfg: Config, s: Store, now: int, key: Key) {
    exists x :: x in s.all && x in s.tracks && Ends(cfg, s, now, x) && Carries(s.tracks[x], key)
  }

  lemma TickMoves(cfg: Config, s: Store, now: int, order: seq<Id>, key: Key)
    requires Sound(s) && Lists(order, s.all) && LiveAt(s, key).Some?
    ensures LiveAt(Reap(cfg, s, now, order), key) != LiveAt(s, key) <==> ReapMoves(cfg, s, now, key)
  {
    NamedKeys(s, key);
    EntriesTaken(cfg, s, now, order, key.name);
    hide Sound, Reap, Ends;
  }

  ghost predicate Moves(cfg: Config, w: World, step: Step, key: Key)
    requires WellFormed(w.store)
  {
    match step
    case Detect(e, _) => DetectionMoves(cfg, w.store, e.d, e.now, key)
    case Tick(now, _) => ReapMoves(cfg, w.store, now, key)
  }

  lemma StepMoves(cfg: Config, w: World, step: Step, key: Key)
    requires Sound(w.store) && Enabled(w, step) && LiveAt(w.store, key).Some?
    ensures LiveAt(Next(cfg, w, step).store, key) != LiveAt(w.store, key) <==> Moves(cfg, w, step, key)
  {
    hide Sound, Ingest, Reap, DetectionMoves, ReapMoves, LiveAt;
    match step
    case Detect(e, newId) => IngestMoves(cfg, w.store, e.d, e.now, newId, e.ground, key);
    case Tick(now, order) => TickMoves(cfg, w.store, now, order, key);
  }

  ghost predicate StaysAt(ws: seq<World>, key: Key, id: Id, i: nat, j: nat)
    requires j < |ws|
  {
    forall k :: i <= k <= j ==> LiveAt(ws[k].store, key) == Some(id)
  }

  ghost predicate NeverMoved(cfg: Config, ws: seq<World>, steps: seq<Step>, key: Key, i: nat, j: nat)
    requires j <= |steps| < |ws|
  {
    forall k :: i <= k < j ==> WellFormed(ws[k].store) && !Moves(cfg, ws[k], steps[k], key)
  }

  lemma StaysSnoc(ws: seq<World>, key: Key, id: Id, i: nat, j: nat)
    requires i <= j && j + 1 < |ws|
    ensures StaysAt(ws, key, id, i, j + 1) <==> StaysAt(ws, key, id, i, j) && LiveAt(ws[j + 1].store, key) == Some(id)
    ensures StaysAt(ws, key, id, i, j) ==> LiveAt(ws[j].store, key) == Some(id)
  {
    hide LiveAt;
  }

  lemma MovedSnoc(cfg: Config, ws: seq<World>, steps: seq<Step>, key: Key, i: nat, j: nat)
    requires i <= j < |steps| < |ws| && WellFormed(ws[j].store)
    ensures NeverMoved(cfg, ws, steps, key, i, j + 1) <==>
            NeverMoved(cfg, ws, steps, key, i, j) && !Moves(cfg, ws[j], steps[j], key)
  {
    hide Moves, WellFormed;
  }

  lemma RunLength(cfg: Config, ws: seq<World>, steps: seq<Step>)
    requires IsRun(cfg, ws, steps)
    ensures |ws| == |steps| + 1
  {}

  lemma AtOnce(cfg: Config, ws: seq<World>, steps: seq<Step>, key: Key, id: Id, i: nat)
    requires i <= |steps| < |ws| && LiveAt(ws[i].store, key) == Some(id)
    ensures StaysAt(ws, key, id, i, i) && NeverMoved(cfg, ws, steps, key, i, i)
  {
    hide LiveAt, Moves;
  }

  lemma OneStep(cfg: Config, ws: seq<World>, steps: seq<Step>, k: nat)
    requires IsRun(cfg, ws, steps) && k < |steps|
    ensures |ws| == |steps| + 1 && Enabled(ws[k], steps[k]) && ws[k + 1] == Next(cfg, ws[k], steps[k]) && Sound(ws[k].store)
  {
    RunsStayValid(cfg, ws, steps, k);
    hide Next, Enabled, Sound, Corroborated, Clocked;
  }

  /** Main: over any run, a track stays findable by a key that leads to it exactly as long as no detection or Reap takes the
      key away: supersession, reopening, the MAC of a detection that goes elsewhere, or the end of a track that carries it. */
  lemma {:induction false} FindableExactly(cfg: Config, ws: seq<World>, steps: seq<Step>, key: Key, id: Id, i: nat, j: nat)
    requires IsRun(cfg, ws, steps) && i <= j < |ws| && LiveAt(ws[i].store, key) == Some(id)
    ensures |ws| == |steps| + 1 && (StaysAt(ws, key, id, i, j) <==> NeverMoved(cfg, ws, steps, key, i, j))
    decreases j - i
  {
    hide IsRun, Next, Enabled, Moves, LiveAt, Sound, StaysAt, NeverMoved;
    RunLength(cfg, ws, steps);
    if i == j {
      AtOnce(cfg, ws, steps, key, id, i);
    } else {
      FindableExactly(cfg, ws, steps, key, id, i, j - 1);
      OneStep(cfg, ws, steps, j - 1);
      StaysSnoc(ws, key, id, i, j - 1);
      MovedSnoc(cfg, ws, steps, key, i, j - 1);
      if LiveAt(ws[j - 1].store, key) == Some(id) {
        StepMoves(cfg, ws[j - 1], steps[j - 1], key);
      }
    }
  }
}
