/**
 Which interleavings tear a subscriber's stream. A short write is followed by a kill, but not under
 the lock it was made under: between the two the other thread can still write.
 */
module ZmtpStream {
  import opened Options
  import opened ZmtpCodec
  import opened ZmtpPub

  /** A write to the peer stopped short after its first byte. */
  predicate Cut(p: Peer) {
    |p.wire| < |p.intended|
  }

  /** The hub's write has failed, and it has not shut the peer's stream yet. */
  predicate HubKills(s: Pub, i: nat) {
    (s.hub.HubKilling? || s.hub.HubShutting?) && s.hub.targets != [] && s.hub.targets[0] == i
  }

  /** The hub may still write the message in its hands to the peer. */
  predicate ToCome(s: Pub, i: nat) {
    match s.hub
    case Idle => false
    case Visiting(_, targets) => i in targets
    case Writing(_, targets, _) => i in targets
    case HubKilling(_, targets) => targets != [] && i in targets[1..]
    case HubShutting(_, targets) => targets != [] && i in targets[1..]
  }

  /** What is missing is the end of a PONG. */
  ghost predicate CutPong(p: Peer) {
    Pong in p.items && exists k :: 0 < k < 7 && Owed(p) == PONG_BYTES[k..]
  }

  predicate Buried(s: Pub, i: nat)
    requires i < |s.peers|
  {
    !s.peers[i].alive && !ToCome(s, i) && (!s.peers[i].reader.Reading? || !s.peers[i].open)
  }

  /** Where a peer with missing bytes can be: in the hub's kill window, in its own reader's, or past both. */
  ghost predicate Placed(s: Pub, i: nat)
    requires i < |s.peers|
  {
    var p := s.peers[i];
    Cut(p) ==> HubKills(s, i) || (!p.reader.Reading? && (Aligned(p) ==> CutPong(p))) || Buried(s, i)
  }

  /** Who killed a peer the hub is still busy with. */
  predicate Deaths(s: Pub, i: nat)
    requires i < |s.peers|
  {
    var p := s.peers[i];
    && (!p.alive && (ToCome(s, i) || (s.hub.HubKilling? && HubKills(s, i))) ==> p.reader.Shutting? || p.reader.Gone?)
    && (s.hub.HubShutting? && HubKills(s, i) ==> !p.alive)
  }

  ghost predicate Watched(s: Pub, i: nat)
    requires i < |s.peers|
  {
    Placed(s, i) && Deaths(s, i)
  }

  lemma {:induction false} OnlyAlive(peers: seq<Peer>, i: nat)
    requires i <= |peers|
    ensures forall t :: t in AliveFrom(peers, i) ==> t < |peers| && peers[t].alive
    decreases |peers| - i
  {
    if i < |peers| {
      OnlyAlive(peers, i + 1);
    }
  }

  lemma TargetsOnce(targets: seq<nat>, bound: nat)
    requires targets != [] && Distinct(targets, bound)
    ensures targets[0] !in targets[1..]
  {}

  /** Nothing is missing of a peer that is not cut. */
  lemma NothingMissing(p: Peer, data: Bytes, n: nat)
    requires |p.wire| <= |p.intended| && !Cut(p) && n <= |data|
    ensures Continues(Owed(p), data, n)
  {
    assert Owed(p) == [];
    NothingOwed(data, n);
  }

  lemma ShortPong(accepted: seq<Message>, p: Peer, n: nat)
    requires |p.wire| == |p.intended| && 0 < n < 7
    ensures |ItemBytes(accepted, Pong)| == 7
    ensures CutPong(Written(p, Pong, ItemBytes(accepted, Pong), n))
  {
    PongIs(accepted);
    hide ItemBytes;
    var q := Written(p, Pong, PONG_BYTES, n);
    assert q.items[|p.items|] == Pong;
    assert Owed(q) == PONG_BYTES[n..];
  }

  /** A bus message written where a PONG was cut short tears the stream. */
  lemma MessageTears(s: Pub, p: Peer, n: nat)
    requires s.hub.Writing? && s.hub.index < |s.accepted| && CutPong(p) && |p.wire| <= |p.intended|
    requires 0 < n <= |ItemBytes(s.accepted, Sent(s.hub.index, s.hub.matched))|
    ensures !Continues(Owed(p), ItemBytes(s.accepted, Sent(s.hub.index, s.hub.matched)), n)
  {
    PongIs(s.accepted);
    hide ItemBytes;
    var k :| 0 < k < 7 && Owed(p) == PONG_BYTES[k..];
    MessageAfterShortPong(s.accepted, Sent(s.hub.index, s.hub.matched), k, n);
  }

  // ---- Every step keeps the peer watched ----

  /** The hub or the reader of another peer moving on leaves this peer where it was, or out of the hub's way. */
  lemma StaysWatched(s: Pub, r: Pub, i: nat)
    requires i < |s.peers| && i < |r.peers| && r.peers[i] == s.peers[i] && Watched(s, i)
    requires HubKills(s, i) ==> r.hub == s.hub
    requires !HubKills(s, i) ==> !HubKills(r, i) && (ToCome(r, i) ==> ToCome(s, i))
    ensures Watched(r, i)
  {
    hide CutPong, Aligned;
  }

  lemma HubWriteWatched(s: Pub, n: nat, i: nat)
    requires Valid(s) && Enabled(s, HubWrite(n)) && i < |s.peers| && Watched(s, i)
    ensures i < |Next(s, HubWrite(n)).peers| && Watched(Next(s, HubWrite(n)), i)
  {
    hide ItemBytes, Matches, Balanced, InOrder, AllBytes, AliveFrom;
    var t := s.hub.targets[0];
    var item := Sent(s.hub.index, s.hub.matched);
    var data := ItemBytes(s.accepted, item);
    assert s.peers[i] in s.peers;
    TargetsOnce(s.hub.targets, |s.peers|);
    if t != i {
      StaysWatched(s, Next(s, HubWrite(n)), i);
    } else {
      var p := s.peers[i];
      WriteAligned(p, item, data, n);
      MessageStarts(s.accepted, item);
      if n > 0 && Cut(p) && Aligned(p) {
        MessageTears(s, p, n);
      }
    }
  }

  lemma PingWatched(s: Pub, p: nat, n: nat, i: nat)
    requires Valid(s) && Enabled(s, Ping(p, n)) && i < |s.peers| && Watched(s, i)
    ensures i < |Next(s, Ping(p, n)).peers| && Watched(Next(s, Ping(p, n)), i)
  {
    hide Matches, Balanced, InOrder, AllBytes, AliveFrom;
    PongIs(s.accepted);
    hide ItemBytes;
    assert s.peers[i] in s.peers;
    if p != i {
      StaysWatched(s, Next(s, Ping(p, n)), i);
    } else if n > 0 && n < 7 && !Cut(s.peers[i]) {
      ShortPong(s.accepted, s.peers[i], n);
      SameMissing(Written(s.peers[i], Pong, ItemBytes(s.accepted, Pong), n), Next(s, Ping(p, n)).peers[i]);
    }
  }

  lemma SameMissing(p: Peer, q: Peer)
    requires q.items == p.items && q.intended == p.intended && q.wire == p.wire
    ensures Cut(p) == Cut(q) && Owed(p) == Owed(q) && Aligned(p) == Aligned(q) && CutPong(p) == CutPong(q)
  {}

  /** Steps that write nothing. */
  predicate Quiet(step: Step) {
    !step.HubWrite? && !step.Ping?
  }

  lemma QuietWatched(s: Pub, step: Step, i: nat)
    requires Valid(s) && Enabled(s, step) && Quiet(step) && i < |s.peers| && Watched(s, i)
    ensures i < |Next(s, step).peers| && Watched(Next(s, step), i)
  {
    hide ItemBytes, Matches, Balanced, GoodPeer, CutPong, Aligned, AliveFrom;
    OnlyAlive(s.peers, 0);
    if s.hub.HubKilling? || s.hub.HubShutting? {
      TargetsOnce(s.hub.targets, |s.peers|);
    }
    SameMissing(s.peers[i], Next(s, step).peers[i]);
  }

  lemma NextWatched(s: Pub, step: Step, i: nat)
    requires Valid(s) && Enabled(s, step) && i < |s.peers| && Watched(s, i)
    ensures i < |Next(s, step).peers| && Watched(Next(s, step), i)
  {
    hide Valid, Enabled, Next, Watched;
    if step.HubWrite? {
      HubWriteWatched(s, step.n, i);
    } else if step.Ping? {
      PingWatched(s, step.p, step.n, i);
    } else {
      QuietWatched(s, step, i);
    }
  }

  lemma {:induction false} RunsStayWatched(ss: seq<Pub>, steps: seq<Step>, k: nat, i: nat)
    requires IsRun(ss, steps) && k < |ss| && i < |ss[k].peers|
    ensures Watched(ss[k], i)
  {
    hide Valid, Next, Enabled, Watched;
    if k > 0 {
      RunsStayValid(ss, steps, k - 1);
      if i < |ss[k - 1].peers| {
        RunsStayWatched(ss, steps, k - 1, i);
        NextWatched(ss[k - 1], steps[k - 1], i);
      } else {
        NewcomerWatched(ss[k - 1], steps[k - 1], i);
      }
    }
  }

  lemma NewcomerWatched(s: Pub, step: Step, i: nat)
    requires Valid(s) && Enabled(s, step) && |s.peers| <= i < |Next(s, step).peers|
    ensures Watched(Next(s, step), i)
  {
    hide Balanced, GoodPeer, ItemBytes, Matches;
  }

  // ---- Which steps tear ----

  /** A bus message put on the wire while the peer's reader thread is on its way to kill it for a PONG cut short. */
  predicate MessageInReaderWindow(s: Pub, step: Step, i: nat)
    requires Enabled(s, step) && i < |s.peers|
  {
    step.HubWrite? && s.hub.targets[0] == i && step.n > 0 && Cut(s.peers[i]) && !s.peers[i].reader.Reading?
  }

  /** A PONG, or some of it, put on the wire while the hub is on its way to kill the peer for a message cut short, and not
      by chance what the message was missing. */
  ghost predicate PongInHubWindow(s: Pub, step: Step, i: nat)
    requires Enabled(s, step) && i < |s.peers|
  {
    && step.Ping? && step.p == i && step.n > 0 && Cut(s.peers[i]) && HubKills(s, i)
    && !Coincides(Owed(s.peers[i]), step.n)
  }

  ghost predicate Tears(s: Pub, step: Step, i: nat)
    requires Enabled(s, step) && i < |s.peers|
  {
    MessageInReaderWindow(s, step, i) || PongInHubWindow(s, step, i)
  }

  lemma MessageTearsExactly(s: Pub, n: nat, i: nat)
    requires Valid(s) && Enabled(s, HubWrite(n)) && i < |s.peers| && Watched(s, i) && Aligned(s.peers[i])
    requires s.hub.targets[0] == i
    ensures StepContinues(s, HubWrite(n), i) <==> !Tears(s, HubWrite(n), i)
  {
    hide ItemBytes, Matches, Balanced, InOrder, AllBytes, AliveFrom;
    var p := s.peers[i];
    assert p in s.peers;
    var data := ItemBytes(s.accepted, Sent(s.hub.index, s.hub.matched));
    if n == 0 {
      assert data[..n] == [];
    } else if Cut(p) {
      MessageTears(s, p, n);
    } else {
      NothingMissing(p, data, n);
    }
  }

  lemma PongTearsExactly(s: Pub, n: nat, i: nat)
    requires Valid(s) && Enabled(s, Ping(i, n)) && i < |s.peers| && Watched(s, i)
    ensures StepContinues(s, Ping(i, n), i) <==> !Tears(s, Ping(i, n), i)
  {
    PongIs(s.accepted);
    hide ItemBytes, Matches, Balanced, InOrder, AllBytes, AliveFrom, CutPong;
    var p := s.peers[i];
    assert p in s.peers;
    var data := ItemBytes(s.accepted, Pong);
    if n == 0 {
      assert data[..n] == [];
    } else if Cut(p) {
      PongAfterShortWrite(s.accepted, Owed(p), n);
    } else {
      NothingMissing(p, data, n);
    }
  }

  lemma StepTears(s: Pub, step: Step, i: nat)
    requires Valid(s) && Enabled(s, step) && i < |s.peers| && Watched(s, i)
    ensures i < |Next(s, step).peers|
    ensures Aligned(Next(s, step).peers[i]) <==> Aligned(s.peers[i]) && !Tears(s, step, i)
  {
    StepAligned(s, step, i);
    if Aligned(s.peers[i]) {
      if step.HubWrite? && s.hub.targets[0] == i {
        MessageTearsExactly(s, step.n, i);
      } else if step.Ping? && step.p == i {
        PongTearsExactly(s, step.n, i);
      }
    }
    hide Valid, Next, Watched, Aligned, Continues, Coincides;
  }

  /** Main: over any run, a peer's stream is torn exactly when a bus message was written in its reader thread's kill window,
      or a PONG in the hub's that the message cut short did not happen to be missing. */
  lemma {:induction false} TornExactly(ss: seq<Pub>, steps: seq<Step>, k: nat, i: nat)
    requires IsRun(ss, steps) && k < |ss| && i < |ss[k].peers|
    ensures !Aligned(ss[k].peers[i]) <==> exists j :: 0 <= j < k && i < |ss[j].peers| && Tears(ss[j], steps[j], i)
  {
    hide Valid, Next, Enabled, Tears, Aligned, Watched;
    if k > 0 {
      RunsStayValid(ss, steps, k - 1);
      if i < |ss[k - 1].peers| {
        RunsStayWatched(ss, steps, k - 1, i);
        StepTears(ss[k - 1], steps[k - 1], i);
        TornExactly(ss, steps, k - 1, i);
        assert ss[k - 1 + 1] == ss[k];
      } else {
        JustRegistered(ss[k - 1], steps[k - 1], i);
        PeersOnlyJoin(ss, steps, k - 1);
      }
    }
  }

  /** Main: until such a step, what has reached the peer decodes to exactly the items that arrived whole, in order, and to all
      it was sent when nothing is missing. */
  lemma DecodesUntilTorn(ss: seq<Pub>, steps: seq<Step>, k: nat, i: nat) returns (n: nat)
    requires IsRun(ss, steps) && k < |ss| && i < |ss[k].peers| && MessagesWithinCaps(ss[k].accepted)
    requires forall j :: 0 <= j < k && i < |ss[j].peers| ==> !Tears(ss[j], steps[j], i)
    ensures var s, peer := ss[k], ss[k].peers[i];
      && InOrder(s.accepted, peer.items, |s.accepted|)
      && Indexed(s.accepted, peer.items)
      && Whole(s.accepted, peer.items, |peer.wire|, n)
      && (!Cut(peer) ==> n == |peer.items|)
      && Decode(peer.wire) == FramesUpTo(s.accepted, peer.items, n)
  {
    hide IsRun, Tears, MessagesWithinCaps, Decode, FramesUpTo, InOrder, Whole;
    TornExactly(ss, steps, k, i);
    n := SubscriberDecodes(ss, steps, k, i);
    var peer := ss[k].peers[i];
    assert Aligned(peer) && !Cut(peer) ==> peer.wire == peer.intended;
  }

  // ---- Peers that send no PING ----

  lemma NoPongs(s: Pub, step: Step, i: nat)
    requires Enabled(s, step) && i < |s.peers| && Pong !in s.peers[i].items && !(step.Ping? && step.p == i)
    ensures i < |Next(s, step).peers| && Pong !in Next(s, step).peers[i].items
  {
    hide ItemBytes, Matches, AliveFrom;
  }

  lemma PingsTear(s: Pub, step: Step, i: nat)
    requires Enabled(s, step) && i < |s.peers| && Watched(s, i) && Pong !in s.peers[i].items
    requires Aligned(s.peers[i]) && !(step.Ping? && step.p == i)
    ensures !Tears(s, step, i)
  {
    hide Aligned;
  }

  /** Main: a peer that sends no PING is never sent a torn stream, however its writes fail and whenever it is killed. */
  lemma {:induction false} UntornWithoutPings(ss: seq<Pub>, steps: seq<Step>, k: nat, i: nat)
    requires IsRun(ss, steps) && k < |ss| && i < |ss[k].peers|
    requires forall j :: 0 <= j < k ==> !(steps[j].Ping? && steps[j].p == i)
    ensures Aligned(ss[k].peers[i]) && Pong !in ss[k].peers[i].items
  {
    hide Valid, Next, Enabled, Tears, Aligned, Watched;
    if k > 0 {
      assert ss[k - 1 + 1] == ss[k];
      if i < |ss[k - 1].peers| {
        UntornWithoutPings(ss, steps, k - 1, i);
        RunsStayValid(ss, steps, k - 1);
        RunsStayWatched(ss, steps, k - 1, i);
        PingsTear(ss[k - 1], steps[k - 1], i);
        StepTears(ss[k - 1], steps[k - 1], i);
        NoPongs(ss[k - 1], steps[k - 1], i);
      } else {
        JustRegistered(ss[k - 1], steps[k - 1], i);
        NoItemsYet(ss[k - 1], steps[k - 1], i);
      }
    }
  }

  lemma NoItemsYet(s: Pub, step: Step, i: nat)
    requires Enabled(s, step) && |s.peers| <= i < |Next(s, step).peers|
    ensures Next(s, step).peers[i].items == []
  {}

  /** The other tear, in a run: the reader thread's PONG stops after one byte, and before it kills the peer the hub writes
      it a message. */
  lemma TornByAMessage() returns (ss: seq<Pub>, steps: seq<Step>)
    ensures IsRun(ss, steps) && |ss[|ss| - 1].peers| == 1
    ensures ss[|ss| - 1].peers[0].wire == [4, 1, 0, 0, 0]
    ensures !Aligned(ss[|ss| - 1].peers[0])
  {
    ss, steps := AboutToWrite();
    hide IsRun, ItemBytes;
    var s5 := ss[|ss| - 1];
    PongIs(s5.accepted);
    EmptyMessageIs(s5.accepted);
    var s6 := Next(s5, Ping(0, 1));
    Extended(ss, steps, Ping(0, 1));
    ss, steps := ss + [s6], steps + [Ping(0, 1)];
    var s7 := Next(s6, HubWrite(4));
    Extended(ss, steps, HubWrite(4));
    ss, steps := ss + [s7], steps + [HubWrite(4)];
    assert s7.peers[0].wire[1] == 1 && s7.peers[0].intended[1] == 5;
  }
}
