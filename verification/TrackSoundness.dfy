/**
 Index soundness: every entry of an identity index leads to a track that exists where the
 index says it does and owns the key. Every operation of the store keeps it, whatever the
 iteration order of a Reap.
 */
module TrackSoundness {
  import opened Options
  import opened Detections
  import opened TrackRecords
  import opened TrackIndex

  ghost predicate OwnsSerial(s: Store, k: string, id: Id)
    requires id in s.tracks
  {
    k != "" && s.tracks[id].serial == k
  }

  ghost predicate OwnsMac(s: Store, k: string, id: Id)
    requires id in s.tracks
  {
    k != "" && k in s.tracks[id].macs
  }

  /** A remembered flight: closed, with a take-off point, and no longer live. */
  ghost predicate Parked(s: Store, id: Id)
    requires id in s.tracks
  {
    s.tracks[id].state.Closed? && s.tracks[id].data.history != [] && id !in s.all
  }

  ghost predicate LiveSerials(s: Store)
    requires WellFormed(s)
  {
    forall k :: k in s.bySerial ==> s.bySerial[k] in s.all && OwnsSerial(s, k, s.bySerial[k])
  }

  ghost predicate LiveMacs(s: Store, m: string)
    requires WellFormed(s)
  {
    forall k :: k in s.byMac ==> k != "" && s.byMac[k] in s.all && (k != m ==> OwnsMac(s, k, s.byMac[k]))
  }

  ghost predicate ParkedSerials(s: Store)
    requires WellFormed(s)
  {
    forall k :: k in s.closedBySerial ==> OwnsSerial(s, k, s.closedBySerial[k]) && Parked(s, s.closedBySerial[k])
  }

  ghost predicate ParkedMacs(s: Store)
    requires WellFormed(s)
  {
    forall k :: k in s.closedByMac ==> OwnsMac(s, k, s.closedByMac[k]) && Parked(s, s.closedByMac[k])
  }

  ghost predicate NamedMacs(s: Store) {
    forall id :: id in s.tracks ==> "" !in s.tracks[id].macs
  }

  /** Index soundness, except for who owns the MAC `m`. */
  ghost predicate SoundBut(s: Store, m: string): (b: bool)
    ensures b ==> WellFormed(s)
  {
    WellFormed(s) && LiveSerials(s) && LiveMacs(s, m) && ParkedSerials(s) && ParkedMacs(s) && NamedMacs(s)
  }

  ghost predicate Sound(s: Store): (b: bool)
    ensures b ==> WellFormed(s)
  {
    SoundBut(s, "")
  }

  lemma PromoteKeeps(s: Store, id: Id, serial: string)
    requires Sound(s) && id in s.all && serial != "" && s.tracks[id].serial == ""
    ensures Sound(Promote(s, id, serial))
  {}

  lemma SoundIsSoundBut(s: Store, m: string)
    requires Sound(s)
    ensures SoundBut(s, m)
  {}

  lemma ResolveKeeps(s: Store, serial: string, mac: string)
    requires Sound(s)
    ensures SoundBut(Resolve(s, serial, mac).0, mac)
    ensures Resolve(s, serial, mac).1.Some? ==> Resolve(s, serial, mac).1.value in s.all
    ensures Resolve(s, serial, mac).0.all == s.all
  {
    if !(serial != "" && serial in s.bySerial) {
      if Resolve(s, serial, mac).0 != s {
        PromoteKeeps(s, s.byMac[mac], serial);
      }
      SoundIsSoundBut(Resolve(s, serial, mac).0, mac);
    }
  }

  lemma UnindexKeeps(s: Store, id: Id, m: string)
    requires SoundBut(s, m) && id in s.tracks
    ensures SoundBut(Unindex(s, id), m)
  {}

  ghost predicate Unparked(s: Store, id: Id) {
    && (forall k :: k in s.closedBySerial ==> s.closedBySerial[k] != id)
    && (forall k :: k in s.closedByMac ==> s.closedByMac[k] != id)
  }

  lemma ForgetKeeps(s: Store, id: Id, m: string)
    requires SoundBut(s, m) && id in s.tracks
    ensures var f := Forget(s, id);
            SoundBut(f, m) && Unparked(f, id)
  {}

  lemma EnliveLive(f: Store, id: Id, m: string)
    requires WellFormed(f) && LiveSerials(f) && LiveMacs(f, m) && NamedMacs(f) && id in f.tracks
    ensures LiveSerials(Enlive(f, id)) && LiveMacs(Enlive(f, id), m) && NamedMacs(Enlive(f, id))
  {
    hide BindAll;
  }

  lemma EnliveParked(f: Store, id: Id)
    requires WellFormed(f) && ParkedSerials(f) && ParkedMacs(f) && Unparked(f, id) && id in f.tracks
    ensures ParkedSerials(Enlive(f, id)) && ParkedMacs(Enlive(f, id))
  {
    hide BindAll;
  }

  lemma EnliveKeeps(f: Store, id: Id, m: string)
    requires SoundBut(f, m) && id in f.tracks && Unparked(f, id)
    ensures SoundBut(Enlive(f, id), m)
  {
    hide LiveSerials, LiveMacs, ParkedSerials, ParkedMacs, NamedMacs, Unparked, Enlive;
    EnliveLive(f, id, m);
    EnliveParked(f, id);
  }

  lemma ReopenKeeps(s: Store, id: Id, m: string)
    requires SoundBut(s, m) && id in s.tracks
    ensures SoundBut(Reopen(s, id), m) && id in Reopen(s, id).all
  {
    hide SoundBut, Unparked;
    ForgetKeeps(s, id, m);
    EnliveKeeps(Forget(s, id), id, m);
  }

  lemma MintKeeps(s: Store, d: Detection, seen: int, newId: Id, m: string)
    requires SoundBut(s, m) && newId !in s.tracks
    ensures SoundBut(Mint(s, d, seen, newId), m) && newId in Mint(s, d, seen, newId).all
  {}

  lemma BindMacLive(s: Store, id: Id, mac: string)
    requires WellFormed(s) && LiveSerials(s) && LiveMacs(s, mac) && NamedMacs(s) && id in s.all && id in s.tracks
    ensures var r := BindMac(s, id, mac);
            LiveSerials(r) && LiveMacs(r, "") && NamedMacs(r) && r.all == s.all
  {
    hide WithMac;
  }

  lemma BindMacParked(s: Store, id: Id, mac: string)
    requires WellFormed(s) && ParkedSerials(s) && ParkedMacs(s) && id in s.all && id in s.tracks
    ensures ParkedSerials(BindMac(s, id, mac)) && ParkedMacs(BindMac(s, id, mac))
  {
    hide WithMac;
  }

  lemma BindMacKeeps(s: Store, id: Id, mac: string)
    requires SoundBut(s, mac) && id in s.all && id in s.tracks
    ensures Sound(BindMac(s, id, mac)) && BindMac(s, id, mac).all == s.all
  {
    hide LiveSerials, LiveMacs, ParkedSerials, ParkedMacs, NamedMacs, BindMac;
    BindMacLive(s, id, mac);
    BindMacParked(s, id, mac);
  }

  lemma ClaimKeeps(s: Store, id: Id, d: Detection)
    requires SoundBut(s, d.mac) && id in s.all && id in s.tracks
    ensures Sound(Claim(s, id, d)) && Claim(s, id, d).all == s.all
  {
    hide Sound, SoundBut, BindMac;
    BindMacKeeps(s, id, d.mac);
    var s1 := BindMac(s, id, d.mac);
    if d.serial != "" && s1.tracks[id].serial == "" {
      PromoteKeeps(s1, id, d.serial);
    }
  }

  lemma LiveKeeps(cfg: Config, s: Store, d: Detection, seen: int)
    requires Sound(s)
    ensures SoundBut(Live(cfg, s, d, seen).0, d.mac)
    ensures Live(cfg, s, d, seen).1.Some? ==> Live(cfg, s, d, seen).1.value in Live(cfg, s, d, seen).0.all
  {
    hide SoundBut, Resolve, Unindex, Resumes, FlightIsOver;
    ResolveKeeps(s, d.serial, d.mac);
    var (s1, found) := Resolve(s, d.serial, d.mac);
    if found.Some? {
      UnindexKeeps(s1, found.value, d.mac);
    }
  }

  lemma ReviveKeeps(cfg: Config, s: Store, d: Detection, seen: int)
    requires SoundBut(s, d.mac)
    ensures SoundBut(Revive(cfg, s, d, seen).0, d.mac)
    ensures Revive(cfg, s, d, seen).1.Some? ==> Revive(cfg, s, d, seen).1.value in Revive(cfg, s, d, seen).0.all
  {
    hide SoundBut, Reopen, Resumes;
    var c := ResolveClosed(s, d.serial, d.mac);
    if c.Some? {
      ReopenKeeps(s, c.value, d.mac);
    }
  }

  /** Attribution, whichever of its branches is taken, ends with every index sound and the track live. */
  lemma AttributeKeeps(cfg: Config, s: Store, d: Detection, now: int, newId: Id)
    requires Sound(s) && newId !in s.tracks
    ensures Sound(Attribute(cfg, s, d, now, newId).0)
    ensures var (s1, r) := Attribute(cfg, s, d, now, newId); r.Some? ==> r.value in s1.all
  {
    hide SoundBut, Live, Revive, Mint, Claim;
    var seen := Seen(d, now);
    LiveKeeps(cfg, s, d, seen);
    var (s1, live) := Live(cfg, s, d, seen);
    ReviveKeeps(cfg, s1, d, seen);
    var (s2, known) := if live.Some? then (s1, live) else Revive(cfg, s1, d, seen);
    if known.None? {
      MintKeeps(s2, d, seen, newId, d.mac);
      ClaimKeeps(Mint(s2, d, seen, newId), newId, d);
    } else {
      ClaimKeeps(s2, known.value, d);
    }
  }

  /** Changing nothing but the measurements and the state of a live track keeps the indexes sound. */
  lemma ReplaceKeeps(s: Store, id: Id, t: Track)
    requires Sound(s) && id in s.all && id in s.tracks
    requires t.serial == s.tracks[id].serial && t.macs == s.tracks[id].macs
    ensures Sound(s.(tracks := s.tracks[id := t]))
  {}

  /** Main: one detection keeps the indexes sound, whatever track it promotes, supersedes, resumes or starts. */
  lemma IngestKeepsSound(cfg: Config, s: Store, d: Detection, now: int, newId: Id, ground: Option<Ground>)
    requires Sound(s) && newId !in s.tracks
    ensures Sound(Ingest(cfg, s, d, now, newId, ground).0)
    ensures var (s1, r) := Ingest(cfg, s, d, now, newId, ground); r.Some? ==> r.value in s1.all
  {
    hide Sound, Attribute, Fold, NextState;
    if d.class_ != CLASS_ADSB {
      AttributeKeeps(cfg, s, d, now, newId);
      var (s1, found) := Attribute(cfg, s, d, now, newId);
      if found.Some? {
        ReplaceKeeps(s1, found.value, Folded(cfg, s1.tracks[found.value], d, now, ground));
      }
    }
  }

  // ---- The track is found again ----

  /** Nothing but this track is found by the serial, and it is found by the serial if there is no MAC to go by. */
  ghost predicate Leads(s: Store, id: Id, serial: string, mac: string) {
    && (serial != "" && serial in s.bySerial ==> s.bySerial[serial] == id)
    && (mac == "" ==> serial != "" && serial in s.bySerial)
  }

  lemma ClaimLeads(s: Store, id: Id, d: Detection)
    requires WellFormed(s) && id in s.tracks && Leads(s, id, d.serial, d.mac)
    ensures Resolve(Claim(s, id, d), d.serial, d.mac).1 == Some(id)
  {}

  lemma LiveLeads(cfg: Config, s: Store, d: Detection, seen: int)
    requires Sound(s) && (d.serial != "" || d.mac != "")
    ensures var (s1, r) := Live(cfg, s, d, seen);
      && (r.Some? ==> Leads(s1, r.value, d.serial, d.mac))
      && (r.None? ==> d.serial == "" || d.serial !in s1.bySerial)
  {
    hide Resumes, FlightIsOver, ParkedSerials, ParkedMacs, LiveMacs, NamedMacs;
  }

  lemma ReviveLeads(cfg: Config, s: Store, d: Detection, seen: int)
    requires SoundBut(s, d.mac) && (d.serial == "" || d.serial !in s.bySerial)
    ensures var (s1, r) := Revive(cfg, s, d, seen); if r.Some? then Leads(s1, r.value, d.serial, d.mac) else s1 == s
  {
    hide Resumes, LiveSerials, LiveMacs, ParkedMacs, NamedMacs, BindAll, Release;
  }

  lemma MintLeads(s: Store, d: Detection, seen: int, newId: Id)
    requires WellFormed(s) && newId !in s.tracks && (d.serial != "" || d.mac != "")
    requires d.serial == "" || d.serial !in s.bySerial
    ensures Leads(Mint(s, d, seen, newId), newId, d.serial, d.mac)
  {}

  /** Resolution looks at the live indexes and at who has a serial yet. */
  lemma ResolvesTheSame(s: Store, id: Id, t: Track, serial: string, mac: string)
    requires WellFormed(s) && id in s.tracks && t.serial == s.tracks[id].serial
    ensures WellFormed(s.(tracks := s.tracks[id := t]))
    ensures Resolve(s.(tracks := s.tracks[id := t]), serial, mac).1 == Resolve(s, serial, mac).1
  {}

  lemma AttributeLeads(cfg: Config, s: Store, d: Detection, now: int, newId: Id)
    requires Sound(s) && newId !in s.tracks
    ensures var (s1, r) := Attribute(cfg, s, d, now, newId);
      r.Some? && (d.serial != "" || d.mac != "") ==> Resolve(s1, d.serial, d.mac).1 == r
  {
    hide SoundBut, Live, Revive, Mint, Claim, Leads, Resolve;
    if d.serial != "" || d.mac != "" {
      var seen := Seen(d, now);
      LiveKeeps(cfg, s, d, seen);
      LiveLeads(cfg, s, d, seen);
      var (s1, live) := Live(cfg, s, d, seen);
      if live.Some? {
        ClaimLeads(s1, live.value, d);
      } else {
        ReviveLeads(cfg, s1, d, seen);
        var (s2, known) := Revive(cfg, s1, d, seen);
        if known.Some? {
          ClaimLeads(s2, known.value, d);
        } else {
          MintLeads(s2, d, seen, newId);
          ClaimLeads(Mint(s2, d, seen, newId), newId, d);
        }
      }
    }
  }

  /** Main: whatever track a detection went to, its identities lead to that track right afterwards. */
  lemma FoundAgain(cfg: Config, s: Store, d: Detection, now: int, newId: Id, ground: Option<Ground>)
    requires Sound(s) && newId !in s.tracks
    ensures var (s1, r) := Ingest(cfg, s, d, now, newId, ground);
      r.Some? ==> Resolve(s1, d.serial, d.mac).1 == r
  {
    hide Sound, Attribute, Fold, NextState, Resolve;
    if d.class_ != CLASS_ADSB {
      AttributeLeads(cfg, s, d, now, newId);
      NeedsAName(cfg, s, d, now, newId);
      var (s1, found) := Attribute(cfg, s, d, now, newId);
      if found.Some? {
        ResolvesTheSame(s1, found.value, Folded(cfg, s1.tracks[found.value], d, now, ground), d.serial, d.mac);
      }
    }
  }

  lemma NeedsAName(cfg: Config, s: Store, d: Detection, now: int, newId: Id)
    requires Sound(s) && newId !in s.tracks
    ensures Attribute(cfg, s, d, now, newId).1.Some? ==> d.serial != "" || d.mac != ""
  {
    hide SoundBut;
  }

  lemma RememberKeeps(s: Store, id: Id)
    requires Sound(s) && id in s.tracks && s.tracks[id].state.Closed? && id !in s.all
    ensures Sound(Remember(s, id))
  {
    hide BindAll;
  }

  /** Unindexing a track leaves no live index entry that leads to it. */
  lemma RetireKeeps(s: Store, id: Id)
    requires Sound(s) && id in s.tracks
    ensures Sound(Unindex(s, id).(all := s.all - {id}))
  {}

  lemma ReapOneKeeps(cfg: Config, s: Store, now: int, id: Id)
    requires Sound(s) && id in s.all && id in s.tracks
    ensures Sound(ReapOne(cfg, s, now, id))
  {
    hide Sound, Remember;
    var t := UpdateState(s.tracks[id], now, cfg.lifecycle);
    var s1 := s.(tracks := s.tracks[id := t]);
    ReplaceKeeps(s, id, t);
    if t.state.Closed? {
      RetireKeeps(s1, id);
      RememberKeeps(Unindex(s1, id).(all := s.all - {id}), id);
    }
  }

  /** What one turn of the loop does to the tracks: only its own is advanced, and leaves when it has closed. */
  lemma ReapOneEffect(cfg: Config, s: Store, now: int, id: Id)
    requires WellFormed(s) && id in s.tracks
    ensures var t := UpdateState(s.tracks[id], now, cfg.lifecycle); var r := ReapOne(cfg, s, now, id);
      && r.tracks == s.tracks[id := t]
      && r.all == if t.state.Closed? then s.all - {id} else s.all
  {}

  /** A Reap pass advances each listed track once, and leaves exactly the unfinished ones live. */
  lemma {:induction false} ReapAllKeeps(cfg: Config, s: Store, now: int, order: seq<Id>)
    requires Sound(s) && (forall id :: id in order ==> id in s.all)
    requires forall i, j :: 0 <= i < j < |order| ==> order[i] != order[j]
    ensures var r := ReapAll(cfg, s, now, order);
      && Sound(r)
      && (forall id :: id in s.tracks ==>
            r.tracks[id] == if id in order then UpdateState(s.tracks[id], now, cfg.lifecycle) else s.tracks[id])
      && (forall id :: id in r.all <==>
            id in s.all && (id in order ==> !UpdateState(s.tracks[id], now, cfg.lifecycle).state.Closed?))
  {
    hide Sound, ReapOne, UpdateState;
    if order != [] {
      var rest, last := order[..|order| - 1], order[|order| - 1];
      assert order == rest + [last];
      assert last !in rest;
      ReapAllKeeps(cfg, s, now, rest);
      ReapOneKeeps(cfg, ReapAll(cfg, s, now, rest), now, last);
      ReapOneEffect(cfg, ReapAll(cfg, s, now, rest), now, last);
    }
  }

  lemma ExpireKeeps(cfg: Config, s: Store, now: int)
    requires Sound(s)
    ensures Sound(Expire(cfg, s, now))
  {}

  lemma WhenClosed(t: Track, now: int, lc: Lifecycle)
    ensures UpdateState(t, now, lc).state.Closed? <==> t.state.Closed? || now - t.data.lastSeen > lc.closeAfter
  {}

  /** Main: a Reap keeps the indexes sound, leaves exactly the unfinished flights live, and advances each track once. */
  lemma ReapKeepsSound(cfg: Config, s: Store, now: int, order: seq<Id>)
    requires Sound(s) && Lists(order, s.all)
    ensures var r := Reap(cfg, s, now, order);
      && Sound(r)
      && r.tracks.Keys == s.tracks.Keys
      && (forall id :: id in s.tracks ==>
            r.tracks[id] == if id in s.all then UpdateState(s.tracks[id], now, cfg.lifecycle) else s.tracks[id])
      && (forall id :: id in r.all <==>
            id in s.all && !s.tracks[id].state.Closed? && now - s.tracks[id].data.lastSeen <= cfg.lifecycle.closeAfter)
  {
    hide Sound, ReapAll, UpdateState;
    assert forall id :: id in order ==> id in s.all && id in s.tracks;
    ReapAllKeeps(cfg, s, now, order);
    ExpireKeeps(cfg, ReapAll(cfg, s, now, order), now);
    forall id | id in s.tracks
      ensures UpdateState(s.tracks[id], now, cfg.lifecycle).state.Closed? <==>
              s.tracks[id].state.Closed? || now - s.tracks[id].data.lastSeen > cfg.lifecycle.closeAfter
    {
      WhenClosed(s.tracks[id], now, cfg.lifecycle);
    }
  }
}
