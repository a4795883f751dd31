/**
 The track store as a value. `tracks` is every track ever minted (the objects), keyed by
 track ID; the other fields are the store's five maps, with IDs in place of pointers.
 */
module TrackIndex {
  import opened Options
  import opened Detections
  import opened TrackRecords

  type Id = string

  datatype Store = Store(
    tracks: map<Id, Track>,
    all: set<Id>,
    bySerial: map<string, Id>,
    byMac: map<string, Id>,
    closedBySerial: map<string, Id>,
    closedByMac: map<string, Id>)

  const EMPTY := Store(map[], {}, map[], map[], map[], map[])

  ghost predicate Into(m: map<string, Id>, ids: set<Id>) {
    forall k :: k in m ==> m[k] in ids
  }

  /** No index refers to a track that does not exist. */
  ghost predicate WellFormed(s: Store) {
    && s.all <= s.tracks.Keys
    && Into(s.bySerial, s.tracks.Keys)
    && Into(s.byMac, s.tracks.Keys)
    && Into(s.closedBySerial, s.tracks.Keys)
    && Into(s.closedByMac, s.tracks.Keys)
  }

  function SetOf(xs: seq<string>): set<string> {
    set x | x in xs
  }

  /** `m` with every MAC of `xs` bound to `id`. */
  function BindAll(m: map<string, Id>, xs: seq<string>, id: Id): (r: map<string, Id>)
    ensures forall k :: k in r <==> k in m || k in xs
    ensures forall k :: k in r ==> r[k] == if k in xs then id else m[k]
  {
    m + map x | x in xs :: id
  }

  /** `m` without the listed keys where they are bound to `id`. */
  function Release(m: map<string, Id>, keys: set<string>, id: Id): map<string, Id> {
    map k | k in m && !(k in keys && m[k] == id) :: m[k]
  }

  function SerialKey(t: Track): set<string> {
    if t.serial == "" then {} else {t.serial}
  }

  /** A track without a serial is given one, and becomes findable by it. */
  function Promote(s: Store, id: Id, serial: string): (r: Store)
    requires WellFormed(s) && id in s.tracks
    ensures WellFormed(r)
  {
    s.(tracks := s.tracks[id := s.tracks[id].(serial := serial)], bySerial := s.bySerial[serial := id])
  }

  /** Identity precedence: serial, then MAC; a MAC-only track is promoted when a serial arrives. */
  function Resolve(s: Store, serial: string, mac: string): (r: (Store, Option<Id>))
    requires WellFormed(s)
    ensures WellFormed(r.0)
    ensures r.0.tracks.Keys == s.tracks.Keys
    ensures r.1.Some? ==> r.1.value in s.tracks
  {
    if serial != "" && serial in s.bySerial then
      var id := s.bySerial[serial];
      (if mac != "" then s.(byMac := s.byMac[mac := id]) else s, Some(id))
    else if serial != "" && mac != "" && mac in s.byMac && s.tracks[s.byMac[mac]].serial == "" then
      (Promote(s, s.byMac[mac], serial), Some(s.byMac[mac]))
    else if mac != "" && mac in s.byMac then
      (s, Some(s.byMac[mac]))
    else
      (s, None)
  }

  predicate FlightIsOver(lc: Lifecycle, t: Track, seen: int) {
    t.state.Closed? || seen - t.data.lastSeen > lc.closeAfter
  }

  predicate Resumes(cfg: Config, t: Track, d: Detection, seen: int) {
    && cfg.lifecycle.resumeWithin > 0
    && seen - t.data.lastSeen <= cfg.lifecycle.resumeWithin
    && d.position.Some?
    && |t.data.history| > 0
    && var takeoff, fix := t.data.history[0], d.position.value;
    || cfg.dist(takeoff.lat, takeoff.lon, fix.lat, fix.lon) >= RESUME_MIN_RANGE_M
    || (&& takeoff.altGeodeticM.Some?
        && fix.altGeodeticM.Some?
        && fix.altGeodeticM.value - takeoff.altGeodeticM.value >= RESUME_MIN_CLIMB_M)
  }

  /** Drops a track from the live identity indexes by key, whoever the keys point to by now. */
  function Unindex(s: Store, id: Id): (r: Store)
    requires WellFormed(s) && id in s.tracks
    ensures WellFormed(r)
  {
    var t := s.tracks[id];
    s.(bySerial := s.bySerial - SerialKey(t), byMac := s.byMac - SetOf(t.macs))
  }

  function ResolveClosed(s: Store, serial: string, mac: string): Option<Id> {
    if serial != "" && serial in s.closedBySerial then Some(s.closedBySerial[serial])
    else if mac != "" && mac in s.closedByMac then Some(s.closedByMac[mac])
    else None
  }

  function Remember(s: Store, id: Id): (r: Store)
    requires WellFormed(s) && id in s.tracks
    ensures WellFormed(r)
  {
    var t := s.tracks[id];
    if |t.data.history| == 0 then s
    else s.(closedBySerial := if t.serial != "" then s.closedBySerial[t.serial := id] else s.closedBySerial,
            closedByMac := BindAll(s.closedByMac, t.macs, id))
  }

  function Forget(s: Store, id: Id): (r: Store)
    requires WellFormed(s) && id in s.tracks
    ensures WellFormed(r)
  {
    var t := s.tracks[id];
    s.(closedBySerial := Release(s.closedBySerial, SerialKey(t), id),
       closedByMac := Release(s.closedByMac, SetOf(t.macs), id))
  }

  /** Puts a track among the live ones, as COASTING, findable by everything it owns. */
  function Enlive(s: Store, id: Id): (r: Store)
    requires WellFormed(s) && id in s.tracks
    ensures WellFormed(r)
  {
    var t := s.tracks[id];
    s.(tracks := s.tracks[id := t.(state := Coasting)],
       all := s.all + {id},
       bySerial := if t.serial != "" then s.bySerial[t.serial := id] else s.bySerial,
       byMac := BindAll(s.byMac, t.macs, id))
  }

  /** A closed flight rejoins the live tracks. */
  function Reopen(s: Store, id: Id): (r: Store)
    requires WellFormed(s) && id in s.tracks
    ensures WellFormed(r)
  {
    Enlive(Forget(s, id), id)
  }

  function NewTrack(d: Detection, seen: int): Track {
    Track(Tentative, d.serial, [], Measures(seen, 0, 0, d.vendorHint, "", "", 0.0, map[], None, [], None, None, map[]))
  }

  function Mint(s: Store, d: Detection, seen: int, newId: Id): (r: Store)
    requires WellFormed(s) && newId !in s.tracks
    ensures WellFormed(r) && newId in r.tracks
  {
    s.(tracks := s.tracks[newId := NewTrack(d, seen)],
       all := s.all + {newId},
       bySerial := if d.serial != "" then s.bySerial[d.serial := newId] else s.bySerial)
  }

  function WithMac(macs: seq<string>, mac: string): (r: seq<string>)
    ensures forall k :: k in r <==> k in macs || k == mac
  {
    if mac !in macs then macs + [mac] else macs
  }

  function BindMac(s: Store, id: Id, mac: string): (r: Store)
    requires WellFormed(s) && id in s.tracks
    ensures WellFormed(r) && id in r.tracks
  {
    var t := s.tracks[id];
    if mac == "" then s
    else s.(tracks := s.tracks[id := t.(macs := WithMac(t.macs, mac))],
            byMac := s.byMac[mac := id])
  }

  /** Binds the detection's MAC and a late serial to the track. */
  function Claim(s: Store, id: Id, d: Detection): (r: Store)
    requires WellFormed(s) && id in s.tracks
    ensures WellFormed(r) && id in r.tracks
  {
    var s1 := BindMac(s, id, d.mac);
    if d.serial != "" && s1.tracks[id].serial == "" then Promote(s1, id, d.serial) else s1
  }

  /** The live track the detection belongs to, if its flight is not over. */
  function Live(cfg: Config, s: Store, d: Detection, seen: int): (r: (Store, Option<Id>))
    requires WellFormed(s)
    ensures WellFormed(r.0) && r.0.tracks.Keys == s.tracks.Keys
    ensures r.1.Some? ==> r.1.value in r.0.tracks
  {
    var (s1, found) := Resolve(s, d.serial, d.mac);
    if found.Some? && FlightIsOver(cfg.lifecycle, s1.tracks[found.value], seen)
       && !Resumes(cfg, s1.tracks[found.value], d, seen)
    then (Unindex(s1, found.value), None)
    else (s1, found)
  }

  /** The closed flight the detection resumes, put back among the live ones. */
  function Revive(cfg: Config, s: Store, d: Detection, seen: int): (r: (Store, Option<Id>))
    requires WellFormed(s)
    ensures WellFormed(r.0) && r.0.tracks.Keys == s.tracks.Keys
    ensures r.1.Some? ==> r.1.value in r.0.tracks
  {
    var c := ResolveClosed(s, d.serial, d.mac);
    if c.Some? && Resumes(cfg, s.tracks[c.value], d, seen) then (Reopen(s, c.value), c) else (s, None)
  }

  /** The track a detection is folded into, existing, resumed or new; None for one nothing could find again. */
  function Attribute(cfg: Config, s: Store, d: Detection, now: int, newId: Id): (r: (Store, Option<Id>))
    requires WellFormed(s) && newId !in s.tracks
    ensures WellFormed(r.0)
    ensures r.1.Some? ==> r.1.value in r.0.tracks
  {
    var seen := Seen(d, now);
    var (s1, live) := Live(cfg, s, d, seen);
    var (s2, known) := if live.Some? then (s1, live) else Revive(cfg, s1, d, seen);
    if known.None? && d.serial == "" && d.mac == "" then (s2, None)
    else
      var s3 := if known.Some? then s2 else Mint(s2, d, seen, newId);
      var id := if known.Some? then known.value else newId;
      (Claim(s3, id, d), Some(id))
  }

  /** A track after one more detection, its lifecycle advanced. */
  ghost function Folded(cfg: Config, t: Track, d: Detection, now: int, ground: Option<Ground>): Track {
    UpdateState(t.(data := Fold(cfg, t.data, d, now, ground)), now, cfg.lifecycle)
  }

  /** One detection. `newId` is what the ID generator would return; `ground` what the terrain resolver would. */
  ghost function Ingest(cfg: Config, s: Store, d: Detection, now: int, newId: Id, ground: Option<Ground>)
    : (r: (Store, Option<Id>))
    requires WellFormed(s) && newId !in s.tracks
    ensures WellFormed(r.0)
    ensures r.1.Some? ==> r.1.value in r.0.tracks
  {
    if d.class_ == CLASS_ADSB then (s, None)
    else
      var (s1, found) := Attribute(cfg, s, d, now, newId);
      if found.None? then (s1, None)
      else
        var id := found.value;
        (s1.(tracks := s1.tracks[id := Folded(cfg, s1.tracks[id], d, now, ground)]), found)
  }

  /** One turn of Reap's first loop, for one live track. */
  ghost function ReapOne(cfg: Config, s: Store, now: int, id: Id): (r: Store)
    requires WellFormed(s) && id in s.tracks
    ensures WellFormed(r) && r.tracks.Keys == s.tracks.Keys
  {
    var prev := s.tracks[id].state;
    var t := UpdateState(s.tracks[id], now, cfg.lifecycle);
    var s1 := s.(tracks := s.tracks[id := t]);
    if t.state.Closed? then
      var s2 := Unindex(s1, id).(all := s.all - {id});
      if prev.Coasting? || prev.Confirmed? then Remember(s2, id) else s2
    else s1
  }

  /** Reap's first loop: the live tracks in the order the map iteration happens to produce. */
  ghost function ReapAll(cfg: Config, s: Store, now: int, order: seq<Id>): (r: Store)
    requires WellFormed(s) && (forall id :: id in order ==> id in s.tracks)
    ensures WellFormed(r) && r.tracks.Keys == s.tracks.Keys
  {
    if order == [] then s else ReapOne(cfg, ReapAll(cfg, s, now, order[..|order| - 1]), now, order[|order| - 1])
  }

  predicate Expired(cfg: Config, t: Track, now: int) {
    now - t.data.lastSeen > cfg.lifecycle.resumeWithin
  }

  /** Reap's last two loops: closed flights past ResumeWithin are over for good. */
  function Expire(cfg: Config, s: Store, now: int): (r: Store)
    requires WellFormed(s)
    ensures WellFormed(r)
  {
    s.(closedBySerial := map k | k in s.closedBySerial && !Expired(cfg, s.tracks[s.closedBySerial[k]], now) :: s.closedBySerial[k],
       closedByMac := map k | k in s.closedByMac && !Expired(cfg, s.tracks[s.closedByMac[k]], now) :: s.closedByMac[k])
  }

  /** A listing of a set, each element once: the order of one map iteration. */
  ghost predicate Lists(order: seq<Id>, ids: set<Id>) {
    && (forall id :: id in order <==> id in ids)
    && (forall i, j :: 0 <= i < j < |order| ==> order[i] != order[j])
  }

  ghost function Reap(cfg: Config, s: Store, now: int, order: seq<Id>): (r: Store)
    requires WellFormed(s) && Lists(order, s.all)
    ensures WellFormed(r)
  {
    Expire(cfg, ReapAll(cfg, s, now, order), now)
  }

  /** The tracks one Reap reports: those whose state it changed, in iteration order. */
  ghost function Changed(cfg: Config, s: Store, now: int, order: seq<Id>): seq<Id>
    requires forall id :: id in order ==> id in s.tracks
  {
    if order == [] then []
    else
      var id := order[|order| - 1];
      Changed(cfg, s, now, order[..|order| - 1])
      + if UpdateState(s.tracks[id], now, cfg.lifecycle).state != s.tracks[id].state then [id] else []
  }
}
