/**
 Whether the reaper happened to run between two detections of a flight: what that changes, and
 what it does not.
 */
module TrackReaping {
  import opened Options
  import opened Detections
  import opened TrackRecords
  import opened TrackIndex
  import opened TrackSoundness
  import opened TrackRuns

  /** Main: a Reap changes whether a flight counts as over exactly when its clock is ahead of the detection and the end of
      the flight falls between the two. */
  lemma OverExactly(cfg: Config, s: Store, now: int, order: seq<Id>, id: Id, seen: int)
    requires Sound(s) && Lists(order, s.all) && id in s.all
    ensures var t := s.tracks[id];
      && id in Reap(cfg, s, now, order).tracks
      && (FlightIsOver(cfg.lifecycle, Reap(cfg, s, now, order).tracks[id], seen) != FlightIsOver(cfg.lifecycle, t, seen) <==>
            !t.state.Closed? && seen - t.data.lastSeen <= cfg.lifecycle.closeAfter < now - t.data.lastSeen)
  {
    hide Sound, Reap, NextState;
    ReapKeepsSound(cfg, s, now, order);
    WhenClosed(s.tracks[id], now, cfg.lifecycle);
  }

  // ---- What a Reap takes out of the live indexes ----

  /** The track has been quiet for more than CloseAfter by the time of the Reap, or is CLOSED already. */
  predicate Ends(cfg: Config, s: Store, now: int, x: Id)
    requires x in s.tracks
  {
    s.tracks[x].state.Closed? || now - s.tracks[x].data.lastSeen > cfg.lifecycle.closeAfter
  }

  lemma SetOfIs(xs: seq<string>)
    ensures forall m: string :: m in SetOf(xs) <==> m in xs
  {}

  lemma OneReapedEntries(cfg: Config, s: Store, now: int, x: Id, k: string)
    requires WellFormed(s) && x in s.tracks && k != ""
    ensures var r := ReapOne(cfg, s, now, x); var t := s.tracks[x];
      && (k in r.bySerial <==> k in s.bySerial && (Ends(cfg, s, now, x) ==> t.serial != k))
      && (k in r.bySerial ==> r.bySerial[k] == s.bySerial[k])
      && (k in r.byMac <==> k in s.byMac && (Ends(cfg, s, now, x) ==> k !in t.macs))
      && (k in r.byMac ==> r.byMac[k] == s.byMac[k])
  {
    WhenClosed(s.tracks[x], now, cfg.lifecycle);
    hide NextState, BindAll, WellFormed, SetOf;
    assert forall m: string :: m in SetOf(s.tracks[x].macs) <==> m in s.tracks[x].macs by {
      SetOfIs(s.tracks[x].macs);
    }
  }

  /** No track of the list that carries the serial, or the MAC, is ended. */
  ghost predicate SerialSpared(cfg: Config, s: Store, now: int, order: seq<Id>, k: string)
    requires forall x :: x in order ==> x in s.tracks
  {
    forall x :: x in order && Ends(cfg, s, now, x) ==> s.tracks[x].serial != k
  }

  ghost predicate MacSpared(cfg: Config, s: Store, now: int, order: seq<Id>, k: string)
    requires forall x :: x in order ==> x in s.tracks
  {
    forall x :: x in order && Ends(cfg, s, now, x) ==> k !in s.tracks[x].macs
  }

  lemma {:induction false} ReapAllEntries(cfg: Config, s: Store, now: int, order: seq<Id>, k: string)
    requires Sound(s) && k != "" && forall x :: x in order ==> x in s.all && x in s.tracks
    requires forall i, j :: 0 <= i < j < |order| ==> order[i] != order[j]
    ensures var r := ReapAll(cfg, s, now, order);
      && (k in r.bySerial <==> k in s.bySerial && SerialSpared(cfg, s, now, order, k))
      && (k in r.bySerial ==> r.bySerial[k] == s.bySerial[k])
      && (k in r.byMac <==> k in s.byMac && MacSpared(cfg, s, now, order, k))
      && (k in r.byMac ==> r.byMac[k] == s.byMac[k])
  {
    hide Sound, ReapOne, UpdateState;
    if order != [] {
      var rest, last := order[..|order| - 1], order[|order| - 1];
      assert order == rest + [last] && last !in rest;
      ReapAllEntries(cfg, s, now, rest, k);
      ReapAllKeeps(cfg, s, now, rest);
      OneReapedEntries(cfg, ReapAll(cfg, s, now, rest), now, last, k);
    }
  }

  /** Main: a Reap takes a key out of a live index exactly when it ends some live track that carries the key, be it the one
      the key leads to or a superseded one; the keys that stay lead where they led. */
  lemma EntriesTaken(cfg: Config, s: Store, now: int, order: seq<Id>, k: string)
    requires Sound(s) && Lists(order, s.all)
    ensures forall x :: x in s.all ==> x in s.tracks
    ensures var r := Reap(cfg, s, now, order);
      && (k in s.bySerial ==> (k !in r.bySerial <==> exists x :: x in s.all && Ends(cfg, s, now, x) && s.tracks[x].serial == k))
      && (k in s.byMac ==> (k !in r.byMac <==> exists x :: x in s.all && Ends(cfg, s, now, x) && k in s.tracks[x].macs))
      && (k in r.bySerial ==> k in s.bySerial && r.bySerial[k] == s.bySerial[k])
      && (k in r.byMac ==> k in s.byMac && r.byMac[k] == s.byMac[k])
  {
    KeysNamed(cfg, s, now, order, k);
    hide Sound, ReapAll, Ends, SoundBut;
    assert forall x :: x in order <==> x in s.all;
    if k != "" {
      ReapAllEntries(cfg, s, now, order, k);
    }
  }

  lemma KeysNamed(cfg: Config, s: Store, now: int, order: seq<Id>, k: string)
    requires Sound(s) && Lists(order, s.all)
    ensures k == "" ==> k !in s.bySerial && k !in s.byMac
    ensures k == "" ==> k !in Reap(cfg, s, now, order).bySerial && k !in Reap(cfg, s, now, order).byMac
  {
    ReapKeepsSound(cfg, s, now, order);
    hide Reap;
  }

  /** So a successor can be live and not findable by the serial it carries: ending the flight it superseded takes its entry. */
  lemma SuccessorHidden(cfg: Config, s: Store, now: int, order: seq<Id>, before: Id, after: Id)
    requires Sound(s) && Lists(order, s.all)
    requires before in s.all && after in s.all && before in s.tracks && after in s.tracks
    requires s.tracks[before].serial == s.tracks[after].serial && s.tracks[after].serial in s.bySerial
    requires Ends(cfg, s, now, before) && !Ends(cfg, s, now, after)
    ensures after in Reap(cfg, s, now, order).all && s.tracks[after].serial !in Reap(cfg, s, now, order).bySerial
  {
    EntriesTaken(cfg, s, now, order, s.tracks[after].serial);
    ReapKeepsSound(cfg, s, now, order);
    WhenClosed(s.tracks[after], now, cfg.lifecycle);
    hide Sound, Reap, NextState;
  }

  // ---- What a Reap puts into the closed indexes ----

  datatype Key = Serial(name: string) | Mac(name: string)

  predicate Carries(t: Track, key: Key) {
    key.name != "" && if key.Serial? then t.serial == key.name else key.name in t.macs
  }

  /** The remembered flight a key leads to. */
  function ParkedAt(s: Store, key: Key): Option<Id> {
    var m := if key.Serial? then s.closedBySerial else s.closedByMac;
    if key.name in m then Some(m[key.name]) else None
  }

  /** A flight this Reap ends and remembers. */
  ghost predicate Parks(cfg: Config, s: Store, now: int, x: Id)
    requires x in s.tracks
  {
    Ends(cfg, s, now, x) && Shown(s.tracks[x]) && s.tracks[x].data.history != []
  }

  /** Who holds the key once the listed tracks have been reaped: the last one remembered under it, else whoever did. */
  ghost function Heir(cfg: Config, s: Store, now: int, order: seq<Id>, key: Key): Option<Id>
    requires forall x :: x in order ==> x in s.tracks
  {
    if order == [] then ParkedAt(s, key)
    else
      var last := order[|order| - 1];
      if Parks(cfg, s, now, last) && Carries(s.tracks[last], key) then Some(last)
      else Heir(cfg, s, now, order[..|order| - 1], key)
  }

  lemma OneReapedParked(cfg: Config, s: Store, now: int, x: Id, key: Key)
    requires WellFormed(s) && x in s.tracks && key.name != ""
    ensures ParkedAt(ReapOne(cfg, s, now, x), key) ==
            if Parks(cfg, s, now, x) && Carries(s.tracks[x], key) then Some(x) else ParkedAt(s, key)
  {
    hide MayConfirm, WellFormed, SetOf;
  }

  lemma {:induction false} ReapAllParked(cfg: Config, s: Store, now: int, order: seq<Id>, key: Key)
    requires Sound(s) && key.name != "" && forall x :: x in order ==> x in s.all && x in s.tracks
    requires forall i, j :: 0 <= i < j < |order| ==> order[i] != order[j]
    ensures ParkedAt(ReapAll(cfg, s, now, order), key) == Heir(cfg, s, now, order, key)
  {
    hide Sound, ReapOne, UpdateState, ParkedAt, Carries;
    if order != [] {
      var rest, last := order[..|order| - 1], order[|order| - 1];
      assert order == rest + [last] && last !in rest;
      ReapAllParked(cfg, s, now, rest, key);
      ReapAllKeeps(cfg, s, now, rest);
      OneReapedParked(cfg, ReapAll(cfg, s, now, rest), now, last, key);
    }
  }

  lemma {:induction false} HeirExists(cfg: Config, s: Store, now: int, order: seq<Id>, key: Key)
    requires Sound(s) && forall x :: x in order ==> x in s.tracks
    ensures Heir(cfg, s, now, order, key).Some? ==> Heir(cfg, s, now, order, key).value in s.tracks
  {
    if order != [] {
      hide Sound, Parks, Carries;
      HeirExists(cfg, s, now, order[..|order| - 1], key);
    }
  }

  /** The heir, if his flight is not too long ago. */
  ghost function Remembered(cfg: Config, s: Store, now: int, order: seq<Id>, key: Key): Option<Id>
    requires forall x :: x in order ==> x in s.tracks
  {
    var h := Heir(cfg, s, now, order, key);
    if h.Some? && h.value in s.tracks && now - s.tracks[h.value].data.lastSeen <= cfg.lifecycle.resumeWithin then h else None
  }

  lemma ExpireParked(cfg: Config, s: Store, now: int, key: Key)
    requires WellFormed(s)
    ensures ParkedAt(Expire(cfg, s, now), key) ==
            var h := ParkedAt(s, key);
            if h.Some? && now - s.tracks[h.value].data.lastSeen <= cfg.lifecycle.resumeWithin then h else None
  {}

  /** Main: what the closed indexes hold after a Reap: under each key the last flight ended with it that was on the map and
      had a take-off point, else the one already there; unless it is past ResumeWithin. */
  lemma AfterReap(cfg: Config, s: Store, now: int, order: seq<Id>, key: Key)
    requires Sound(s) && Lists(order, s.all) && key.name != ""
    ensures forall x :: x in order ==> x in s.tracks
    ensures ParkedAt(Reap(cfg, s, now, order), key) == Remembered(cfg, s, now, order, key)
  {
    assert forall x :: x in order ==> x in s.all && x in s.tracks;
    ReapAllParked(cfg, s, now, order, key);
    ReapAllKeeps(cfg, s, now, order);
    HeirExists(cfg, s, now, order, key);
    ExpireParked(cfg, ReapAll(cfg, s, now, order), now, key);
    hide Sound, ReapAll, Heir, Parks, Carries, ParkedAt, NextState;
  }

  // ---- Whether a flight is rejoined ----

  /** A flight in the store that one Reap at `now` ends. */
  ghost predicate Ending(cfg: Config, s: Store, now: int, id: Id) {
    && id in s.all && id in s.tracks && !s.tracks[id].state.Closed?
    && now - s.tracks[id].data.lastSeen > cfg.lifecycle.closeAfter
  }

  lemma EndingEnds(cfg: Config, s: Store, now: int, id: Id)
    requires Ending(cfg, s, now, id)
    ensures Ends(cfg, s, now, id)
  {}

  predicate StillFlying(cfg: Config, t: Track, d: Detection, seen: int) {
    !FlightIsOver(cfg.lifecycle, t, seen) || Resumes(cfg, t, d, seen)
  }

  /** The live track a detection goes to, if its identities lead to one that takes it. */
  lemma LiveIs(cfg: Config, s: Store, d: Detection, seen: int)
    requires WellFormed(s)
    ensures var found := Resolve(s, d.serial, d.mac).1;
      Live(cfg, s, d, seen).1 ==
        if found.Some? && found.value in s.tracks && StillFlying(cfg, s.tracks[found.value], d, seen) then found else None
  {
    ResolveRebinds(s, d.serial, d.mac);
    hide Resolve, Resumes;
    SameFlying(cfg, s, Resolve(s, d.serial, d.mac).0, d, seen);
  }

  lemma SameFlying(cfg: Config, s: Store, s1: Store, d: Detection, seen: int)
    requires OnlyRebinds(s, s1)
    ensures forall x :: x in s.tracks ==> x in s1.tracks
    ensures forall x :: x in s.tracks ==> StillFlying(cfg, s1.tracks[x], d, seen) == StillFlying(cfg, s.tracks[x], d, seen)
  {}

  /** The remembered flight it goes to otherwise. */
  ghost function Revives(cfg: Config, s: Store, d: Detection, seen: int): Option<Id>
    requires WellFormed(s)
  {
    var c := ResolveClosed(s, d.serial, d.mac);
    if c.Some? && Resumes(cfg, s.tracks[c.value], d, seen) then c else None
  }

  /** Attribution in one line. */
  lemma AttributeIs(cfg: Config, s: Store, d: Detection, now: int, newId: Id)
    requires WellFormed(s) && newId !in s.tracks
    ensures var live, known := Live(cfg, s, d, Seen(d, now)).1, Revives(cfg, s, d, Seen(d, now));
      Attribute(cfg, s, d, now, newId).1 ==
        if live.Some? then live
        else if known.Some? then known
        else if d.serial == "" && d.mac == "" then None
        else Some(newId)
  {
    var seen := Seen(d, now);
    LiveRebinds(cfg, s, d, seen);
    ResolvesInto(s, d.serial, d.mac);
    hide Live, Claim, Mint, Reopen, Resumes, WellFormed;
    var s1 := Live(cfg, s, d, seen).0;
    var c := ResolveClosed(s, d.serial, d.mac);
    assert ResolveClosed(s1, d.serial, d.mac) == c;
    if c.Some? {
      SameResumes(cfg, s.tracks[c.value], s1.tracks[c.value], d, seen);
    }
  }

  lemma ResolvesInto(s: Store, serial: string, mac: string)
    requires WellFormed(s)
    ensures ResolveClosed(s, serial, mac).Some? ==> ResolveClosed(s, serial, mac).value in s.tracks
  {}

  lemma SameResumes(cfg: Config, t: Track, u: Track, d: Detection, seen: int)
    requires t.data == u.data
    ensures Resumes(cfg, t, d, seen) == Resumes(cfg, u, d, seen)
  {}

  /** The live track a detection's identities lead to once a Reap has been, as seen before it. */
  ghost function LiveAfter(cfg: Config, s: Store, now: int, order: seq<Id>, d: Detection): Option<Id>
    requires forall x :: x in order ==> x in s.tracks
  {
    if d.serial != "" && d.serial in s.bySerial && SerialSpared(cfg, s, now, order, d.serial) then Some(s.bySerial[d.serial])
    else if d.mac != "" && d.mac in s.byMac && MacSpared(cfg, s, now, order, d.mac) then Some(s.byMac[d.mac])
    else None
  }

  /** The remembered flight they lead to. */
  ghost function ParkedAfter(cfg: Config, s: Store, now: int, order: seq<Id>, d: Detection): Option<Id>
    requires forall x :: x in order ==> x in s.tracks
  {
    var bySerial := if d.serial != "" then Remembered(cfg, s, now, order, Serial(d.serial)) else None;
    if bySerial.Some? then bySerial
    else if d.mac != "" then Remembered(cfg, s, now, order, Mac(d.mac)) else None
  }

  lemma ResolveIs(s: Store, serial: string, mac: string)
    requires WellFormed(s)
    ensures Resolve(s, serial, mac).1 ==
      if serial != "" && serial in s.bySerial then Some(s.bySerial[serial])
      else if mac != "" && mac in s.byMac then Some(s.byMac[mac])
      else None
    ensures ResolveClosed(s, serial, mac) ==
      if serial != "" && ParkedAt(s, Serial(serial)).Some? then ParkedAt(s, Serial(serial))
      else if mac != "" then ParkedAt(s, Mac(mac)) else None
  {}

  /** Reap, by key. */
  lemma KeysAfterReap(cfg: Config, s: Store, now: int, order: seq<Id>, d: Detection)
    requires Sound(s) && Lists(order, s.all)
    ensures forall x :: x in order ==> x in s.tracks
    ensures var r := Reap(cfg, s, now, order);
      && Resolve(r, d.serial, d.mac).1 == LiveAfter(cfg, s, now, order, d)
      && ResolveClosed(r, d.serial, d.mac) == ParkedAfter(cfg, s, now, order, d)
  {
    hide Sound, Reap, Ends, Carries, Resolve, ResolveClosed, ParkedAt, Remembered;
    ReapKeepsSound(cfg, s, now, order);
    InAll(s);
    assert forall x :: x in order <==> x in s.all;
    ResolveIs(Reap(cfg, s, now, order), d.serial, d.mac);
    if d.serial != "" {
      SparedExactly(cfg, s, now, order, d.serial);
      AfterReap(cfg, s, now, order, Serial(d.serial));
    }
    if d.mac != "" {
      SparedExactly(cfg, s, now, order, d.mac);
      AfterReap(cfg, s, now, order, Mac(d.mac));
    }
  }

  lemma InAll(s: Store)
    requires Sound(s)
    ensures forall x :: x in s.all ==> x in s.tracks
  {}

  lemma SparedExactly(cfg: Config, s: Store, now: int, order: seq<Id>, k: string)
    requires Sound(s) && Lists(order, s.all)
    ensures forall x :: x in order ==> x in s.tracks
    ensures var r := Reap(cfg, s, now, order);
      && (k in r.bySerial <==> k in s.bySerial && SerialSpared(cfg, s, now, order, k))
      && (k in r.bySerial ==> r.bySerial[k] == s.bySerial[k])
      && (k in r.byMac <==> k in s.byMac && MacSpared(cfg, s, now, order, k))
      && (k in r.byMac ==> r.byMac[k] == s.byMac[k])
  {
    hide Sound, Reap, Ends;
    InAll(s);
    assert forall x :: x in order <==> x in s.all;
    EntriesTaken(cfg, s, now, order, k);
  }

  /** A Reap takes no flight's take-off point or last sighting, nor does it end one it does not end. */
  lemma SameAfterReap(cfg: Config, s: Store, rnow: int, order: seq<Id>, d: Detection, seen: int, x: Id)
    requires Sound(s) && Lists(order, s.all) && x in s.tracks
    ensures var r := Reap(cfg, s, rnow, order);
      && x in r.tracks
      && (x !in s.all || !Ends(cfg, s, rnow, x) ==>
            StillFlying(cfg, r.tracks[x], d, seen) == StillFlying(cfg, s.tracks[x], d, seen))
      && Resumes(cfg, r.tracks[x], d, seen) == Resumes(cfg, s.tracks[x], d, seen)
  {
    ReapKeepsSound(cfg, s, rnow, order);
    WhenClosed(s.tracks[x], rnow, cfg.lifecycle);
    hide Sound, Reap, Resumes, NextState;
    SameResumes(cfg, s.tracks[x], Reap(cfg, s, rnow, order).tracks[x], d, seen);
  }

  /** A live track a key still leads to has not been ended. */
  lemma LiveAfterSpared(cfg: Config, s: Store, now: int, order: seq<Id>, d: Detection)
    requires Sound(s) && Lists(order, s.all)
    ensures forall x :: x in order ==> x in s.tracks
    ensures var live := LiveAfter(cfg, s, now, order, d);
      live.Some? ==> live.value in s.all && live.value in s.tracks && !Ends(cfg, s, now, live.value)
  {
    hide Ends, ParkedSerials, ParkedMacs, NamedMacs;
    assert forall x :: x in order <==> x in s.all;
  }

  /** Main: where a detection goes after a Reap, from the store before it: to the live track its serial, else its MAC, still
      leads to, if that takes it; else to the flight remembered under them, if it is resumed; else to a new track. */
  lemma AttributeAfterReap(cfg: Config, s: Store, rnow: int, order: seq<Id>, d: Detection, now: int, newId: Id)
    requires Sound(s) && newId !in s.tracks && Lists(order, s.all)
    ensures forall x :: x in order ==> x in s.tracks
    ensures newId !in Reap(cfg, s, rnow, order).tracks
    ensures var live, parked, seen := LiveAfter(cfg, s, rnow, order, d), ParkedAfter(cfg, s, rnow, order, d), Seen(d, now);
      Attribute(cfg, Reap(cfg, s, rnow, order), d, now, newId).1 ==
        if live.Some? && live.value in s.tracks && StillFlying(cfg, s.tracks[live.value], d, seen) then live
        else if parked.Some? && parked.value in s.tracks && Resumes(cfg, s.tracks[parked.value], d, seen) then parked
        else if d.serial == "" && d.mac == "" then None
        else Some(newId)
  {
    hide Sound, Reap, Attribute, Live, Resolve, ResolveClosed, LiveAfter, ParkedAfter, StillFlying, Resumes, WellFormed, SoundBut, Ends;
    LiveAfterSpared(cfg, s, rnow, order, d);
    var r, seen := Reap(cfg, s, rnow, order), Seen(d, now);
    ReapKeepsSound(cfg, s, rnow, order);
    KeysAfterReap(cfg, s, rnow, order, d);
    AttributeIs(cfg, r, d, now, newId);
    LiveIs(cfg, r, d, seen);
    ResolvesInto(r, d.serial, d.mac);
    var live, parked := Resolve(r, d.serial, d.mac).1, ResolveClosed(r, d.serial, d.mac);
    if live.Some? && live.value in s.tracks {
      SameAfterReap(cfg, s, rnow, order, d, seen, live.value);
    }
    if parked.Some? && parked.value in s.tracks {
      SameAfterReap(cfg, s, rnow, order, d, seen, parked.value);
    }
  }

  /** Without the Reap, the flight is taken up from the live tracks, in the air. */
  lemma TakenLive(cfg: Config, s: Store, id: Id, d: Detection, now: int, newId: Id)
    requires Sound(s) && newId !in s.tracks && id in s.all && id in s.tracks
    requires Attribute(cfg, s, d, now, newId).1 == Some(id)
    ensures Resolve(s, d.serial, d.mac).1 == Some(id) && StillFlying(cfg, s.tracks[id], d, Seen(d, now))
  {
    hide Attribute, Live, Resolve, Resumes, FlightIsOver;
    AttributeIs(cfg, s, d, now, newId);
    LiveIs(cfg, s, d, Seen(d, now));
    hide StillFlying, WellFormed;
    assert forall k :: k in s.closedBySerial ==> s.closedBySerial[k] !in s.all;
    assert forall k :: k in s.closedByMac ==> s.closedByMac[k] !in s.all;
  }

  /** Another live track that the detection's MAC still leads to after the Reap, and that takes it. */
  ghost predicate TakenElsewhere(cfg: Config, s: Store, rnow: int, order: seq<Id>, d: Detection, seen: int)
    requires forall x :: x in order ==> x in s.tracks
  {
    && d.mac != "" && d.mac in s.byMac && s.byMac[d.mac] in s.tracks
    && MacSpared(cfg, s, rnow, order, d.mac)
    && StillFlying(cfg, s.tracks[s.byMac[d.mac]], d, seen)
  }

  /** What the Reap does to the keys of the flight the detection would go to. */
  lemma OwnKeysTaken(cfg: Config, s: Store, id: Id, rnow: int, order: seq<Id>, d: Detection)
    requires Sound(s) && Lists(order, s.all) && Ending(cfg, s, rnow, id)
    requires Resolve(s, d.serial, d.mac).1 == Some(id)
    ensures forall x :: x in order ==> x in s.tracks
    ensures LiveAfter(cfg, s, rnow, order, d) ==
            if d.mac != "" && d.mac in s.byMac && MacSpared(cfg, s, rnow, order, d.mac) then Some(s.byMac[d.mac]) else None
    ensures d.mac in s.byMac && MacSpared(cfg, s, rnow, order, d.mac) ==> s.byMac[d.mac] != id
    ensures Carries(s.tracks[id], Serial(d.serial)) || Carries(s.tracks[id], Mac(d.mac))
  {
    ResolveIs(s, d.serial, d.mac);
    EndingEnds(cfg, s, rnow, id);
    assert id in order;
    hide Ends, Resolve, ParkedSerials, ParkedMacs, NamedMacs;
  }

  /** Main: a detection that would be folded into a flight is, after a Reap that ends the flight, still folded into it exactly
      when its MAC does not still lead to another live track that takes it, the flight is what its serial, else its MAC, is
      remembered by, and the detection resumes it. The Reap's clock may be behind the detection's stamp or ahead of it. */
  lemma RejoinsAfterReap(cfg: Config, s: Store, id: Id, rnow: int, order: seq<Id>, d: Detection, now: int, newId: Id)
    requires Sound(s) && newId !in s.tracks && Lists(order, s.all)
    requires Ending(cfg, s, rnow, id) && Attribute(cfg, s, d, now, newId).1 == Some(id)
    ensures newId !in Reap(cfg, s, rnow, order).tracks && forall x :: x in order ==> x in s.tracks
    ensures Attribute(cfg, Reap(cfg, s, rnow, order), d, now, newId).1 == Some(id) <==>
            && !TakenElsewhere(cfg, s, rnow, order, d, Seen(d, now))
            && ParkedAfter(cfg, s, rnow, order, d) == Some(id)
            && Resumes(cfg, s.tracks[id], d, Seen(d, now))
  {
    hide Sound, Reap, Attribute, Live, Resolve, ResolveClosed, LiveAfter, ParkedAfter, MacSpared, Resumes, WellFormed, SoundBut;
    TakenLive(cfg, s, id, d, now, newId);
    OwnKeysTaken(cfg, s, id, rnow, order, d);
    AttributeAfterReap(cfg, s, rnow, order, d, now, newId);
    MacLeads(s, d.mac);
  }

  /** When the Reap's clock is not ahead of the detection's stamp, the flight is over by then too, so it is resumed or not
      with or without the Reap. */
  lemma RejoinsAfterEarlierReap(cfg: Config, s: Store, id: Id, rnow: int, order: seq<Id>, d: Detection, now: int, newId: Id)
    requires Sound(s) && newId !in s.tracks && Lists(order, s.all) && rnow <= Seen(d, now)
    requires Ending(cfg, s, rnow, id) && Attribute(cfg, s, d, now, newId).1 == Some(id)
    ensures newId !in Reap(cfg, s, rnow, order).tracks && forall x :: x in order ==> x in s.tracks
    ensures Attribute(cfg, Reap(cfg, s, rnow, order), d, now, newId).1 == Some(id) <==>
            !TakenElsewhere(cfg, s, rnow, order, d, Seen(d, now)) && ParkedAfter(cfg, s, rnow, order, d) == Some(id)
  {
    hide Sound, Reap, Attribute, ParkedAfter, TakenElsewhere, Resumes, WellFormed;
    TakenLive(cfg, s, id, d, now, newId);
    RejoinsAfterReap(cfg, s, id, rnow, order, d, now, newId);
  }

  /** A flight a key is remembered by has been ended. */
  lemma {:induction false} HeirEnded(cfg: Config, s: Store, now: int, order: seq<Id>, key: Key, id: Id)
    requires Sound(s) && (forall x :: x in order ==> x in s.tracks) && id in s.all && id in s.tracks && !Ends(cfg, s, now, id)
    ensures Heir(cfg, s, now, order, key) != Some(id)
  {
    if order == [] {
      hide LiveSerials, LiveMacs, NamedMacs;
    } else {
      hide Sound, Ends, Carries;
      HeirEnded(cfg, s, now, order[..|order| - 1], key, id);
    }
  }

  /** Main: a detection that would be folded into a live flight is, after a Reap that does not end it, still folded into it
      exactly when its serial, else its MAC, still leads there: no track that carries the key was ended. */
  lemma KeepsAfterReap(cfg: Config, s: Store, id: Id, rnow: int, order: seq<Id>, d: Detection, now: int, newId: Id)
    requires Sound(s) && newId !in s.tracks && Lists(order, s.all)
    requires id in s.all && id in s.tracks && !Ends(cfg, s, rnow, id) && Attribute(cfg, s, d, now, newId).1 == Some(id)
    ensures newId !in Reap(cfg, s, rnow, order).tracks && forall x :: x in order ==> x in s.tracks
    ensures Attribute(cfg, Reap(cfg, s, rnow, order), d, now, newId).1 == Some(id) <==>
            LiveAfter(cfg, s, rnow, order, d) == Some(id)
  {
    hide Sound, Reap, Attribute, Resolve, LiveAfter, Heir, Ends, StillFlying, Resumes, WellFormed;
    AttributeAfterReap(cfg, s, rnow, order, d, now, newId);
    TakenLive(cfg, s, id, d, now, newId);
    HeirEnded(cfg, s, rnow, order, Serial(d.serial), id);
    HeirEnded(cfg, s, rnow, order, Mac(d.mac), id);
  }

  lemma MacLeads(s: Store, mac: string)
    requires Sound(s)
    ensures mac in s.byMac ==> s.byMac[mac] in s.tracks
  {}

  /** No other flight this Reap ends, and none remembered, carries either identity of the detection. */
  ghost predicate Unrivalled(cfg: Config, s: Store, rnow: int, id: Id, d: Detection) {
    && (forall x :: x in s.all && x in s.tracks && x != id && Ends(cfg, s, rnow, x) ==>
          !Carries(s.tracks[x], Serial(d.serial)) && !Carries(s.tracks[x], Mac(d.mac)))
    && ParkedAt(s, Serial(d.serial)) == None && ParkedAt(s, Mac(d.mac)) == None
  }

  lemma {:induction false} HeirAlone(cfg: Config, s: Store, now: int, order: seq<Id>, id: Id, key: Key)
    requires (forall x :: x in order ==> x in s.tracks) && id in s.tracks && ParkedAt(s, key) == None
    requires forall x :: x in order && x != id && Ends(cfg, s, now, x) ==> !Carries(s.tracks[x], key)
    ensures Heir(cfg, s, now, order, key) ==
            if id in order && Parks(cfg, s, now, id) && Carries(s.tracks[id], key) then Some(id) else None
  {
    hide Ends, Carries, ParkedAt;
    if order != [] {
      HeirAlone(cfg, s, now, order[..|order| - 1], id, key);
    }
  }

  lemma ResumesToo(cfg: Config, s: Store, id: Id, rnow: int, d: Detection, seen: int)
    requires Ending(cfg, s, rnow, id)
    ensures Resumes(cfg, s.tracks[id], d, seen) ==> (Parks(cfg, s, rnow, id) <==> !s.tracks[id].state.Tentative?)
    ensures rnow <= seen && StillFlying(cfg, s.tracks[id], d, seen) ==>
            Resumes(cfg, s.tracks[id], d, seen) && rnow - s.tracks[id].data.lastSeen <= cfg.lifecycle.resumeWithin
  {}

  lemma ParkedAlone(cfg: Config, s: Store, id: Id, rnow: int, order: seq<Id>, d: Detection)
    requires (forall x :: x in order <==> x in s.all) && (forall x :: x in order ==> x in s.tracks) && id in order
    requires Unrivalled(cfg, s, rnow, id, d)
    requires Carries(s.tracks[id], Serial(d.serial)) || Carries(s.tracks[id], Mac(d.mac))
    ensures ParkedAfter(cfg, s, rnow, order, d) == Some(id) <==>
            Parks(cfg, s, rnow, id) && rnow - s.tracks[id].data.lastSeen <= cfg.lifecycle.resumeWithin
  {
    hide Heir, Ends, ParkedAt, Parks;
    HeirAlone(cfg, s, rnow, order, id, Serial(d.serial));
    HeirAlone(cfg, s, rnow, order, id, Mac(d.mac));
  }

  lemma SparedAlone(cfg: Config, s: Store, id: Id, rnow: int, order: seq<Id>, d: Detection)
    requires (forall x :: x in order <==> x in s.all) && (forall x :: x in order ==> x in s.tracks) && id in order
    requires Unrivalled(cfg, s, rnow, id, d) && Ends(cfg, s, rnow, id) && d.mac != ""
    ensures MacSpared(cfg, s, rnow, order, d.mac) <==> !Carries(s.tracks[id], Mac(d.mac))
  {
    hide Ends;
  }

  /** Not a MAC the flight lacks and another live track answers to. */
  ghost predicate OwnOrUnanswered(cfg: Config, s: Store, id: Id, d: Detection, seen: int)
    requires id in s.tracks
  {
    d.mac != "" && d.mac in s.byMac && s.byMac[d.mac] in s.tracks && !Carries(s.tracks[id], Mac(d.mac)) ==>
      !StillFlying(cfg, s.tracks[s.byMac[d.mac]], d, seen)
  }

  /** Main: with no such rival, the flight is rejoined exactly when it was on the map, not TENTATIVE, the detection resumes
      it, the Reap did not find it past ResumeWithin, and no other live track answers to a MAC the flight lacks; whether
      the detection brings a serial, a MAC or both, and whenever it was stamped. */
  lemma RejoinsAlone(cfg: Config, s: Store, id: Id, rnow: int, order: seq<Id>, d: Detection, now: int, newId: Id)
    requires Sound(s) && newId !in s.tracks && Lists(order, s.all)
    requires Ending(cfg, s, rnow, id) && Attribute(cfg, s, d, now, newId).1 == Some(id)
    requires Unrivalled(cfg, s, rnow, id, d)
    ensures newId !in Reap(cfg, s, rnow, order).tracks
    ensures Attribute(cfg, Reap(cfg, s, rnow, order), d, now, newId).1 == Some(id) <==>
            && !s.tracks[id].state.Tentative?
            && Resumes(cfg, s.tracks[id], d, Seen(d, now))
            && rnow - s.tracks[id].data.lastSeen <= cfg.lifecycle.resumeWithin
            && OwnOrUnanswered(cfg, s, id, d, Seen(d, now))
  {
    hide Sound, Reap, Attribute, Live, Resolve, LiveAfter, ParkedAfter, WellFormed, SoundBut, Ends, Unrivalled, MacSpared, StillFlying, Carries, Resumes;
    RejoinsAfterReap(cfg, s, id, rnow, order, d, now, newId);
    TakenLive(cfg, s, id, d, now, newId);
    OwnKeysTaken(cfg, s, id, rnow, order, d);
    MacLeads(s, d.mac);
    InAll(s);
    assert forall x :: x in order <==> x in s.all;
    EndingEnds(cfg, s, rnow, id);
    ResumesToo(cfg, s, id, rnow, d, Seen(d, now));
    ParkedAlone(cfg, s, id, rnow, order, d);
    if d.mac != "" {
      SparedAlone(cfg, s, id, rnow, order, d);
    }
  }

  /** After a Reap whose clock is not ahead of the detection's stamp: exactly when it was not TENTATIVE, and no other live
      track answers. */
  lemma RejoinsAloneAfterEarlierReap(cfg: Config, s: Store, id: Id, rnow: int, order: seq<Id>, d: Detection, now: int, newId: Id)
    requires Sound(s) && newId !in s.tracks && Lists(order, s.all) && rnow <= Seen(d, now)
    requires Ending(cfg, s, rnow, id) && Attribute(cfg, s, d, now, newId).1 == Some(id)
    requires Unrivalled(cfg, s, rnow, id, d)
    ensures newId !in Reap(cfg, s, rnow, order).tracks
    ensures Attribute(cfg, Reap(cfg, s, rnow, order), d, now, newId).1 == Some(id) <==>
            !s.tracks[id].state.Tentative? && OwnOrUnanswered(cfg, s, id, d, Seen(d, now))
  {
    hide Sound, Reap, Attribute, WellFormed, Unrivalled, StillFlying, OwnOrUnanswered, Resumes;
    TakenLive(cfg, s, id, d, now, newId);
    RejoinsAlone(cfg, s, id, rnow, order, d, now, newId);
    ResumesToo(cfg, s, id, rnow, d, Seen(d, now));
  }
}
