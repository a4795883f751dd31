/**
 The PUB socket as concurrent steps: senders, the hub thread, and one reader thread per
 subscriber, interleaved in any way. A write to a peer may stop short, as a write timeout does.
 */
module ZmtpPub {
  import opened Options
  import opened ZmtpCodec

  datatype Message = Message(topic: Bytes, body: Bytes)

  /** What a peer is sent: a bus message, with the subscriptions it matched, or a PONG. */
  datatype Item = Sent(index: nat, subscriptions: seq<Bytes>) | Pong

  /** A peer's reader thread: reading, about to kill the peer, about to shut its stream, or gone. */
  datatype Reader = Reading | Killing | Shutting | Gone

  /** `wire` is what reached the stream; `intended` what whole writes would have made of it. */
  datatype Peer = Peer(
    subscriptions: seq<Bytes>,
    alive: bool,
    open: bool,
    reader: Reader,
    items: seq<Item>,
    intended: Bytes,
    wire: Bytes)

  const NEW_PEER := Peer([], true, true, Reading, [], [], [])

  /** The hub thread: waiting; going through its snapshot of peers; about to write to, kill or shut the first. */
  datatype Hub =
    | Idle
    | Visiting(index: nat, targets: seq<nat>)
    | Writing(index: nat, targets: seq<nat>, matched: seq<Bytes>)
    | HubKilling(index: nat, targets: seq<nat>)
    | HubShutting(index: nat, targets: seq<nat>)

  /** `accepted` lists every message try_send took; the queue holds indices into it. */
  datatype Pub = Pub(
    hwm: nat,
    sends: nat,
    accepted: seq<Message>,
    queue: seq<nat>,
    dequeued: nat,
    published: nat,
    dropped: nat,
    uncountedPublished: nat,
    uncountedDropped: nat,
    hub: Hub,
    peers: seq<Peer>)

  function Start(hwm: nat): Pub {
    Pub(hwm, 0, [], [], 0, 0, 0, 0, 0, Idle, [])
  }

  function Capacity(hwm: nat): nat {
    if hwm < 1 then 1 else hwm
  }

  datatype Step =
    | Send(msg: Message)
    | CountPublished
    | CountDropped
    | Recv
    | Match
    | HubWrite(n: nat)
    | HubKill
    | HubShut
    | Register
    | Subscribe(p: nat, topic: Bytes)
    | Cancel(p: nat, topic: Bytes)
    | Ping(p: nat, n: nat)
    | HangUp(p: nat)
    | ReaderKill(p: nat)
    | ReaderShut(p: nat)

  function Frames(m: Message): seq<Frame> {
    [Frame(false, m.topic), Frame(false, m.body)]
  }

  const PONG_FRAME := Frame(true, CommandBody([80, 79, 78, 71], []))

  function ItemFrames(accepted: seq<Message>, item: Item): seq<Frame>
    requires item.Sent? ==> item.index < |accepted|
  {
    if item.Sent? then Frames(accepted[item.index]) else [PONG_FRAME]
  }

  function ItemBytes(accepted: seq<Message>, item: Item): Bytes
    requires item.Sent? ==> item.index < |accepted|
  {
    MessageBytes(ItemFrames(accepted, item))
  }

  /** An empty subscription matches everything. */
  predicate Matches(subscriptions: seq<Bytes>, topic: Bytes) {
    exists s :: s in subscriptions && s <= topic
  }

  /** Adding is idempotent; cancelling removes every copy. */
  function Subscribed(subs: seq<Bytes>, topic: Bytes): seq<Bytes> {
    if topic in subs then subs else subs + [topic]
  }

  function Cancelled(subs: seq<Bytes>, topic: Bytes): seq<Bytes> {
    if subs == [] then []
    else (if subs[0] == topic then [] else [subs[0]]) + Cancelled(subs[1..], topic)
  }

  /** The peers alive now, in the order they registered, from number `i` on. */
  function AliveFrom(peers: seq<Peer>, i: nat): seq<nat>
    requires i <= |peers|
    decreases |peers| - i
  {
    if i == |peers| then [] else (if peers[i].alive then [i] else []) + AliveFrom(peers, i + 1)
  }

  /** A write of `data` of which `n` bytes got out. Nothing of it was intended if nothing got out. */
  function Written(p: Peer, item: Item, data: Bytes, n: nat): Peer
    requires n <= |data|
  {
    if n == 0 then p
    else p.(items := p.items + [item], intended := p.intended + data, wire := p.wire + data[..n])
  }

  predicate WellTargeted(s: Pub, index: nat, targets: seq<nat>) {
    && targets != [] && targets[0] < |s.peers|
    && index < |s.accepted|
  }

  /** When a step can happen. A closed stream accepts nothing; a short write is an error. */
  predicate Enabled(s: Pub, step: Step) {
    match step
    case Send(_) => true
    case CountPublished => s.uncountedPublished > 0
    case CountDropped => s.uncountedDropped > 0
    case Recv => s.hub.Idle? && s.queue != []
    case Match => s.hub.Visiting? && (s.hub.targets == [] || WellTargeted(s, s.hub.index, s.hub.targets))
    case HubWrite(n) =>
      && s.hub.Writing? && WellTargeted(s, s.hub.index, s.hub.targets)
      && n <= |ItemBytes(s.accepted, Sent(s.hub.index, s.hub.matched))|
      && (!s.peers[s.hub.targets[0]].open ==> n == 0)
    case HubKill => s.hub.HubKilling? && WellTargeted(s, s.hub.index, s.hub.targets)
    case HubShut => s.hub.HubShutting? && WellTargeted(s, s.hub.index, s.hub.targets)
    case Register => true
    case Subscribe(p, _) => p < |s.peers| && s.peers[p].reader.Reading?
    case Cancel(p, _) => p < |s.peers| && s.peers[p].reader.Reading?
    case Ping(p, n) =>
      && p < |s.peers| && s.peers[p].reader.Reading?
      && n <= |ItemBytes(s.accepted, Pong)|
      && (!s.peers[p].open ==> n == 0)
    case HangUp(p) => p < |s.peers| && s.peers[p].reader.Reading?
    case ReaderKill(p) => p < |s.peers| && s.peers[p].reader.Killing?
    case ReaderShut(p) => p < |s.peers| && s.peers[p].reader.Shutting?
  }

  function Next(s: Pub, step: Step): Pub
    requires Enabled(s, step)
  {
    match step
    case Send(msg) =>
      if |s.queue| < Capacity(s.hwm)
      then s.(sends := s.sends + 1, accepted := s.accepted + [msg], queue := s.queue + [|s.accepted|],
              uncountedPublished := s.uncountedPublished + 1)
      else s.(sends := s.sends + 1, uncountedDropped := s.uncountedDropped + 1)
    case CountPublished => s.(uncountedPublished := s.uncountedPublished - 1, published := s.published + 1)
    case CountDropped => s.(uncountedDropped := s.uncountedDropped - 1, dropped := s.dropped + 1)
    case Recv =>
      s.(queue := s.queue[1..], dequeued := s.dequeued + 1, hub := Visiting(s.queue[0], AliveFrom(s.peers, 0)))
    case Match =>
      if s.hub.targets == [] then s.(hub := Idle)
      else
        var p := s.peers[s.hub.targets[0]];
        s.(hub := if Matches(p.subscriptions, s.accepted[s.hub.index].topic)
                  then Writing(s.hub.index, s.hub.targets, p.subscriptions)
                  else Visiting(s.hub.index, s.hub.targets[1..]))
    case HubWrite(n) =>
      var item := Sent(s.hub.index, s.hub.matched);
      var data, t := ItemBytes(s.accepted, item), s.hub.targets[0];
      s.(peers := s.peers[t := Written(s.peers[t], item, data, n)],
         hub := if n == |data| then Visiting(s.hub.index, s.hub.targets[1..]) else HubKilling(s.hub.index, s.hub.targets))
    case HubKill =>
      var t := s.hub.targets[0];
      s.(peers := s.peers[t := s.peers[t].(alive := false)],
         hub := if s.peers[t].alive then HubShutting(s.hub.index, s.hub.targets) else Visiting(s.hub.index, s.hub.targets[1..]))
    case HubShut =>
      var t := s.hub.targets[0];
      s.(peers := s.peers[t := s.peers[t].(open := false)], hub := Visiting(s.hub.index, s.hub.targets[1..]))
    case Register => s.(peers := s.peers + [NEW_PEER])
    case Subscribe(p, topic) =>
      s.(peers := s.peers[p := s.peers[p].(subscriptions := Subscribed(s.peers[p].subscriptions, topic))])
    case Cancel(p, topic) =>
      s.(peers := s.peers[p := s.peers[p].(subscriptions := Cancelled(s.peers[p].subscriptions, topic))])
    case Ping(p, n) =>
      var data := ItemBytes(s.accepted, Pong);
      s.(peers := s.peers[p := Written(s.peers[p], Pong, data, n).(reader := if n == |data| then Reading else Killing)])
    case HangUp(p) => s.(peers := s.peers[p := s.peers[p].(reader := Killing)])
    case ReaderKill(p) =>
      s.(peers := s.peers[p := s.peers[p].(alive := false, reader := if s.peers[p].alive then Shutting else Gone)])
    case ReaderShut(p) => s.(peers := s.peers[p := s.peers[p].(open := false, reader := Gone)])
  }

  ghost predicate IsRun(ss: seq<Pub>, steps: seq<Step>): (b: bool)
    ensures b ==> |ss| > 0
  {
    && |ss| == |steps| + 1
    && ss[0] == Start(ss[0].hwm)
    && forall i :: 0 <= i < |steps| ==> Enabled(ss[i], steps[i]) && ss[i + 1] == Next(ss[i], steps[i])
  }

  // ---- The queue's books ----

  /** Sends are accounted for, the queue is bounded, and it holds the accepted messages not yet taken, in order. */
  ghost predicate Balanced(s: Pub) {
    && s.published + s.uncountedPublished == |s.accepted|
    && |s.accepted| + s.dropped + s.uncountedDropped == s.sends
    && s.dequeued + |s.queue| == |s.accepted|
    && (forall i :: 0 <= i < |s.queue| ==> s.queue[i] == s.dequeued + i)
    && |s.queue| <= Capacity(s.hwm)
  }

  // ---- What each peer is sent ----

  ghost predicate GoodItem(accepted: seq<Message>, item: Item) {
    item.Sent? ==> item.index < |accepted| && Matches(item.subscriptions, accepted[item.index].topic)
  }

  /** Every item exists and was subscribed to, and bus messages go out in the order they were accepted, once each. */
  ghost predicate InOrder(accepted: seq<Message>, items: seq<Item>, below: nat) {
    && (forall i :: 0 <= i < |items| ==> GoodItem(accepted, items[i]) && (items[i].Sent? ==> items[i].index < below))
    && (forall i, j :: 0 <= i < j < |items| && items[i].Sent? && items[j].Sent? ==> items[i].index < items[j].index)
  }

  predicate Indexed(accepted: seq<Message>, items: seq<Item>) {
    forall i :: 0 <= i < |items| && items[i].Sent? ==> items[i].index < |accepted|
  }

  function AllBytes(accepted: seq<Message>, items: seq<Item>): Bytes
    requires Indexed(accepted, items)
  {
    if items == [] then []
    else AllBytes(accepted, items[..|items| - 1]) + ItemBytes(accepted, items[|items| - 1])
  }

  ghost predicate GoodPeer(accepted: seq<Message>, p: Peer, below: nat) {
    && below <= |accepted|
    && InOrder(accepted, p.items, below)
    && p.intended == AllBytes(accepted, p.items)
    && |p.wire| <= |p.intended|
  }

  predicate Distinct(xs: seq<nat>, bound: nat) {
    && (forall i :: 0 <= i < |xs| ==> xs[i] < bound)
    && (forall i, j :: 0 <= i < j < |xs| ==> xs[i] != xs[j])
  }

  /** The message in the hub's hands has not been written to the targets still to come. */
  ghost predicate GoodHub(s: Pub) {
    s.hub.Idle? ||
    (&& s.dequeued > 0 && s.hub.index == s.dequeued - 1 && s.hub.index < |s.accepted|
     && Distinct(s.hub.targets, |s.peers|)
     && (!s.hub.Visiting? ==> s.hub.targets != [])
     && (s.hub.Writing? ==> Matches(s.hub.matched, s.accepted[s.hub.index].topic))
     && (forall i :: (if s.hub.HubKilling? || s.hub.HubShutting? then 1 else 0) <= i < |s.hub.targets| ==>
           GoodPeer(s.accepted, s.peers[s.hub.targets[i]], s.dequeued - 1)))
  }

  ghost predicate Valid(s: Pub) {
    && Balanced(s)
    && (forall p :: p in s.peers ==> GoodPeer(s.accepted, p, s.dequeued))
    && GoodHub(s)
  }

  lemma NextBalanced(s: Pub, step: Step)
    requires Balanced(s) && Enabled(s, step)
    ensures Balanced(Next(s, step))
  {
    hide ItemBytes, Matches, AliveFrom, Written;
  }

  lemma {:induction false} AllBytesGrown(accepted: seq<Message>, m: Message, items: seq<Item>)
    requires Indexed(accepted, items)
    ensures AllBytes(accepted + [m], items) == AllBytes(accepted, items)
  {
    hide ItemBytes, Frames;
    if items != [] {
      AllBytesGrown(accepted, m, items[..|items| - 1]);
      assert ItemBytes(accepted + [m], items[|items| - 1]) == ItemBytes(accepted, items[|items| - 1]) by {
        ItemBytesGrown(accepted, m, items[|items| - 1]);
      }
    }
  }

  lemma ItemBytesGrown(accepted: seq<Message>, m: Message, item: Item)
    requires item.Sent? ==> item.index < |accepted|
    ensures ItemBytes(accepted + [m], item) == ItemBytes(accepted, item)
  {}

  lemma GoodPeerGrown(accepted: seq<Message>, m: Message, p: Peer, below: nat)
    requires GoodPeer(accepted, p, below)
    ensures GoodPeer(accepted + [m], p, below)
  {
    hide ItemBytes, Matches, AllBytes;
    AllBytesGrown(accepted, m, p.items);
  }

  lemma WrittenGood(accepted: seq<Message>, p: Peer, item: Item, n: nat, below: nat)
    requires GoodPeer(accepted, p, below) && GoodItem(accepted, item) && n <= |ItemBytes(accepted, item)|
    requires item.Sent? ==> item.index == below
    ensures GoodPeer(accepted, Written(p, item, ItemBytes(accepted, item), n), if item.Sent? then below + 1 else below)
  {
    hide ItemBytes, Matches;
    assert (p.items + [item])[..|p.items|] == p.items;
  }

  /** Changing nothing about what a peer was sent keeps it good. */
  lemma SameTraffic(accepted: seq<Message>, p: Peer, q: Peer, below: nat)
    requires GoodPeer(accepted, p, below)
    requires q.items == p.items && q.intended == p.intended && q.wire == p.wire
    ensures GoodPeer(accepted, q, below)
  {}

  lemma BelowRaised(accepted: seq<Message>, p: Peer, below: nat, above: nat)
    requires GoodPeer(accepted, p, below) && below <= above <= |accepted|
    ensures GoodPeer(accepted, p, above)
  {}

  lemma {:induction false} AliveDistinct(peers: seq<Peer>, i: nat)
    requires i <= |peers|
    ensures Distinct(AliveFrom(peers, i), |peers|) && forall t :: t in AliveFrom(peers, i) ==> i <= t
    decreases |peers| - i
  {
    if i < |peers| {
      AliveDistinct(peers, i + 1);
      var rest := AliveFrom(peers, i + 1);
      assert forall k :: 0 <= k < |rest| ==> rest[k] in rest;
    }
  }

  /** A step of one peer's reader thread changes that peer only, and keeps all it was sent in order. */
  lemma ReaderStepValid(s: Pub, p: nat, q: Peer)
    requires Valid(s) && p < |s.peers|
    requires forall below :: GoodPeer(s.accepted, s.peers[p], below) ==> GoodPeer(s.accepted, q, below)
    ensures Valid(s.(peers := s.peers[p := q]))
  {
    hide GoodPeer, Matches;
  }

  lemma PingValid(s: Pub, p: nat, n: nat)
    requires Valid(s) && Enabled(s, Ping(p, n))
    ensures Valid(Next(s, Ping(p, n)))
  {
    var data := ItemBytes(s.accepted, Pong);
    var w := Written(s.peers[p], Pong, data, n);
    var q := w.(reader := if n == |data| then Reading else Killing);
    forall below | GoodPeer(s.accepted, s.peers[p], below)
      ensures GoodPeer(s.accepted, q, below)
    {
      WrittenGood(s.accepted, s.peers[p], Pong, n, below);
      SameTraffic(s.accepted, w, q, below);
    }
    hide Valid, GoodPeer, Written, ItemBytes;
    ReaderStepValid(s, p, q);
  }

  lemma QuietValid(s: Pub, p: nat, q: Peer)
    requires Valid(s) && p < |s.peers|
    requires q.items == s.peers[p].items && q.intended == s.peers[p].intended && q.wire == s.peers[p].wire
    ensures Valid(s.(peers := s.peers[p := q]))
  {
    forall below | GoodPeer(s.accepted, s.peers[p], below)
      ensures GoodPeer(s.accepted, q, below)
    {
      SameTraffic(s.accepted, s.peers[p], q, below);
    }
    hide Valid, GoodPeer;
    ReaderStepValid(s, p, q);
  }

  lemma SendValid(s: Pub, m: Message)
    requires Valid(s)
    ensures Valid(Next(s, Send(m)))
  {
    NextBalanced(s, Send(m));
    forall p: Peer, below: nat | GoodPeer(s.accepted, p, below)
      ensures GoodPeer(s.accepted + [m], p, below)
    {
      GoodPeerGrown(s.accepted, m, p, below);
    }
    hide GoodPeer, Matches, Balanced;
  }

  lemma RecvValid(s: Pub)
    requires Valid(s) && Enabled(s, Recv)
    ensures Valid(Next(s, Recv))
  {
    NextBalanced(s, Recv);
    AliveDistinct(s.peers, 0);
    forall p | p in s.peers
      ensures GoodPeer(s.accepted, p, s.dequeued + 1)
    {
      BelowRaised(s.accepted, p, s.dequeued, s.dequeued + 1);
    }
    hide GoodPeer, Matches, AliveFrom;
  }

  lemma HubWriteValid(s: Pub, n: nat)
    requires Valid(s) && Enabled(s, HubWrite(n))
    ensures Valid(Next(s, HubWrite(n)))
  {
    hide GoodPeer, Matches, Written, ItemBytes;
    NextBalanced(s, HubWrite(n));
    hide Balanced;
    var item := Sent(s.hub.index, s.hub.matched);
    WrittenGood(s.accepted, s.peers[s.hub.targets[0]], item, n, s.dequeued - 1);
  }

  /** The hub turning its attention elsewhere, or marking the first target, writes nothing. */
  lemma HubMarkValid(s: Pub, hub: Hub, q: Peer)
    requires Valid(s) && !s.hub.Idle? && WellTargeted(s, s.hub.index, s.hub.targets)
    requires q.items == s.peers[s.hub.targets[0]].items && q.intended == s.peers[s.hub.targets[0]].intended
    requires q.wire == s.peers[s.hub.targets[0]].wire
    requires hub == Visiting(s.hub.index, s.hub.targets[1..])
          || (hub == HubShutting(s.hub.index, s.hub.targets) && s.hub.HubKilling?)
          || (hub == Writing(s.hub.index, s.hub.targets, q.subscriptions) && s.hub.Visiting?
              && Matches(q.subscriptions, s.accepted[s.hub.index].topic))
    ensures Valid(s.(peers := s.peers[s.hub.targets[0] := q], hub := hub))
  {
    var t := s.hub.targets[0];
    QuietValid(s, t, q);
    hide GoodPeer, Matches;
  }

  /** Every step keeps the books, the order, and the subscriptions honoured. */
  lemma NextValid(s: Pub, step: Step)
    requires Valid(s) && Enabled(s, step)
    ensures Valid(Next(s, step))
  {
    match step
    case Send(m) => SendValid(s, m);
    case CountPublished => { hide GoodPeer, Matches; }
    case CountDropped => { hide GoodPeer, Matches; }
    case Recv => RecvValid(s);
    case Match =>
      if s.hub.targets != [] {
        var t := s.hub.targets[0];
        assert s.peers[t := s.peers[t]] == s.peers;
        HubMarkValid(s, Next(s, step).hub, s.peers[t]);
      }
      hide GoodPeer, Matches;
    case HubWrite(n) => HubWriteValid(s, n);
    case HubKill =>
      var t := s.hub.targets[0];
      hide GoodPeer, Matches;
      HubMarkValid(s, Next(s, step).hub, s.peers[t].(alive := false));
    case HubShut =>
      var t := s.hub.targets[0];
      hide GoodPeer, Matches;
      HubMarkValid(s, Next(s, step).hub, s.peers[t].(open := false));
    case Register =>
      assert GoodPeer(s.accepted, NEW_PEER, s.dequeued);
      hide GoodPeer, Matches;
    case Subscribe(p, topic) =>
      hide GoodPeer, Matches;
      QuietValid(s, p, s.peers[p].(subscriptions := Subscribed(s.peers[p].subscriptions, topic)));
    case Cancel(p, topic) =>
      hide GoodPeer, Matches;
      QuietValid(s, p, s.peers[p].(subscriptions := Cancelled(s.peers[p].subscriptions, topic)));
    case Ping(p, n) => PingValid(s, p, n);
    case HangUp(p) => QuietValid(s, p, s.peers[p].(reader := Killing));
    case ReaderKill(p) =>
      hide GoodPeer, Matches;
      QuietValid(s, p, s.peers[p].(alive := false, reader := if s.peers[p].alive then Shutting else Gone));
    case ReaderShut(p) =>
      hide GoodPeer, Matches;
      QuietValid(s, p, s.peers[p].(open := false, reader := Gone));
  }

  /** Main: under any interleaving, sends = published + dropped (once counted), and every peer is sent, in order, at most
      once each, accepted messages that matched a prefix it had subscribed to. */
  lemma {:induction false} RunsStayValid(ss: seq<Pub>, steps: seq<Step>, i: nat)
    requires IsRun(ss, steps) && i < |ss|
    ensures Valid(ss[i])
  {
    hide Valid, Next, Enabled;
    if i == 0 {
      StartValid(ss[0].hwm);
    } else {
      RunsStayValid(ss, steps, i - 1);
      NextValid(ss[i - 1], steps[i - 1]);
    }
  }

  lemma StartValid(hwm: nat)
    ensures Valid(Start(hwm))
  {}

  // ---- When the stream stays meaningful ----

  /** The bytes still owed to a peer whose last write stopped short. */
  function Owed(p: Peer): Bytes {
    if |p.wire| <= |p.intended| then p.intended[|p.wire|..] else []
  }

  /** What is on the stream is a beginning of whole items. */
  ghost predicate Aligned(p: Peer) {
    p.wire <= p.intended
  }

  /** A write that continues what is owed: always so when nothing is. */
  ghost predicate Continues(owed: Bytes, data: Bytes, n: nat)
    requires n <= |data|
  {
    data[..n] <= owed + data
  }

  lemma WriteAligned(p: Peer, item: Item, data: Bytes, n: nat)
    requires |p.wire| <= |p.intended| && n <= |data|
    ensures Aligned(Written(p, item, data, n)) <==> Aligned(p) && Continues(Owed(p), data, n)
  {
    if n > 0 {
      AppendPrefix(p.wire, p.intended, data[..n], data);
    }
  }

  lemma AppendPrefix(w: Bytes, v: Bytes, x: Bytes, y: Bytes)
    requires |w| <= |v| && |x| <= |y|
    ensures w + x <= v + y <==> w <= v && x <= v[|w|..] + y
  {
    var R := v[|w|..];
    assert v + y == v[..|w|] + (R + y);
    assert (v + y)[..|w + x|] == v[..|w|] + (R + y)[..|x|];
    assert (w + x)[..|w|] == w && (w + x)[|w|..] == x;
    assert (v[..|w|] + (R + y)[..|x|])[..|w|] == v[..|w|];
    assert (v[..|w|] + (R + y)[..|x|])[|w|..] == (R + y)[..|x|];
  }

  /** If this step writes to peer `p`, it continues what the peer is owed. */
  ghost predicate StepContinues(s: Pub, step: Step, p: nat)
    requires Enabled(s, step) && p < |s.peers|
  {
    && (step.HubWrite? && s.hub.targets[0] == p ==>
          Continues(Owed(s.peers[p]), ItemBytes(s.accepted, Sent(s.hub.index, s.hub.matched)), step.n))
    && (step.Ping? && step.p == p ==> Continues(Owed(s.peers[p]), ItemBytes(s.accepted, Pong), step.n))
  }

  lemma StepAligned(s: Pub, step: Step, p: nat)
    requires Valid(s) && Enabled(s, step) && p < |s.peers|
    ensures p < |Next(s, step).peers|
    ensures Aligned(Next(s, step).peers[p]) <==> Aligned(s.peers[p]) && StepContinues(s, step, p)
  {
    hide ItemBytes, Matches, Balanced, GoodHub, InOrder, AllBytes, AliveFrom;
    assert s.peers[p] in s.peers;
    match step
    case HubWrite(n) =>
      WriteAligned(s.peers[p], Sent(s.hub.index, s.hub.matched), ItemBytes(s.accepted, Sent(s.hub.index, s.hub.matched)), n);
    case Ping(_, n) =>
      WriteAligned(s.peers[p], Pong, ItemBytes(s.accepted, Pong), n);
    case _ =>
  }

  lemma JustRegistered(s: Pub, step: Step, p: nat)
    requires Enabled(s, step) && |s.peers| <= p < |Next(s, step).peers|
    ensures Aligned(Next(s, step).peers[p])
  {}

  lemma {:induction false} PeersOnlyJoin(ss: seq<Pub>, steps: seq<Step>, i: nat)
    requires IsRun(ss, steps) && i < |ss|
    ensures forall k :: 0 <= k <= i ==> |ss[k].peers| <= |ss[i].peers|
  {
    if i > 0 {
      PeersOnlyJoin(ss, steps, i - 1);
      assert |Next(ss[i - 1], steps[i - 1]).peers| >= |ss[i - 1].peers|;
    }
  }

  lemma PongIs(accepted: seq<Message>)
    ensures ItemBytes(accepted, Pong) == [4, 5, 4, 80, 79, 78, 71]
  {
    assert MessageBytes([PONG_FRAME]) == FrameBytes(PONG_FRAME.body, 4) + [];
  }

  lemma MessageStarts(accepted: seq<Message>, item: Item)
    requires item.Sent? && item.index < |accepted|
    ensures ItemBytes(accepted, item) != [] && ItemBytes(accepted, item)[0] in {1, 3}
  {
    FlagsRead(Frames(accepted[item.index])[0], true, |accepted[item.index].topic|);
  }

  /** Nothing owed: any write, whole or short, keeps the stream meaningful. */
  lemma NothingOwed(data: Bytes, n: nat)
    requires n <= |data|
    ensures Continues([], data, n)
  {
    assert [] + data == data;
  }

  const PONG_BYTES: Bytes := [4, 5, 4, 80, 79, 78, 71]

  /** The missing bytes begin with what gets out of a PONG; or they are the two bytes a PONG's third repeats the first of. */
  predicate Coincides(owed: Bytes, n: nat) {
    n <= 7 && (PONG_BYTES[..n] <= owed || (n == 3 && owed == [4, 5]))
  }

  /** A PONG, or as much of it as gets out, is right after a short write exactly when it coincides with the missing bytes. */
  lemma PongAfterShortWrite(accepted: seq<Message>, owed: Bytes, n: nat)
    requires owed != [] && 0 < n <= 7
    ensures |ItemBytes(accepted, Pong)| == 7
    ensures Continues(owed, ItemBytes(accepted, Pong), n) <==> Coincides(owed, n)
  {
    PongIs(accepted);
    hide ItemBytes;
    var all, m := owed + PONG_BYTES, |owed|;
    var fits := PONG_BYTES[..n] <= all;
    assert fits ==> forall j :: 0 <= j < n ==> PONG_BYTES[j] == all[j];
    if n <= m {
      assert all[..n] == owed[..n];
    } else {
      assert all[m] == 4 && all[m + 1] == 5;
      assert fits ==> PONG_BYTES[m] == 4;
      assert m == 2 ==> all[3] == 5;
      assert fits ==> m == 2 && n == 3 && owed == [4, 5];
      assert owed == [4, 5] ==> all[..3] == [4, 5, 4];
    }
  }

  /** A bus message after a PONG cut short is never right. */
  lemma MessageAfterShortPong(accepted: seq<Message>, item: Item, k: nat, n: nat)
    requires item.Sent? && item.index < |accepted| && 0 < k < 7 && 0 < n <= |ItemBytes(accepted, item)|
    ensures !Continues(ItemBytes(accepted, Pong)[k..], ItemBytes(accepted, item), n)
  {
    PongIs(accepted);
    MessageStarts(accepted, item);
    hide ItemBytes;
    var owed, data := ItemBytes(accepted, Pong)[k..], ItemBytes(accepted, item);
    assert data[..n][0] == data[0] && (owed + data)[0] == owed[0];
  }

  /** A bus message on the wire: the topic, said to be followed by more, and the body. */
  lemma MessageIs(accepted: seq<Message>, item: Item)
    requires item.Sent? && item.index < |accepted|
    ensures var m := accepted[item.index];
      && ItemBytes(accepted, item) == FrameBytes(m.topic, 1) + FrameBytes(m.body, 0)
      && (|m.topic| <= 255 && |m.body| <= 255 ==>
            ItemBytes(accepted, item) == [1, |m.topic|] + m.topic + ([0, |m.body|] + m.body))
  {
    hide FrameBytes;
    var m := accepted[item.index];
    var fs := Frames(m);
    assert fs[1..] == [Frame(false, m.body)] && fs[1..][1..] == [];
    assert MessageBytes([]) == [];
    assert MessageBytes(fs[1..]) == FrameBytes(m.body, 0) + [];
    if |m.topic| <= 255 && |m.body| <= 255 {
      FrameLayout(fs[0], true);
      FrameLayout(fs[1], false);
    }
  }

  lemma EmptyMessageIs(accepted: seq<Message>)
    requires accepted != [] && accepted[0] == Message([], [])
    ensures forall subs :: ItemBytes(accepted, Sent(0, subs)) == [1, 0, 0, 0]
  {
    var fs := Frames(accepted[0]);
    assert MessageBytes(fs[1..]) == FrameBytes([], 0) + [];
    assert MessageBytes(fs) == FrameBytes([], 1) + MessageBytes(fs[1..]);
  }

  lemma Extended(ss: seq<Pub>, steps: seq<Step>, step: Step)
    requires IsRun(ss, steps) && Enabled(ss[|ss| - 1], step)
    ensures IsRun(ss + [Next(ss[|ss| - 1], step)], steps + [step])
  {
    hide Next, Enabled;
  }

  /** One subscriber to everything, and one empty message the hub has matched and is about to write to it. */
  lemma AboutToWrite() returns (ss: seq<Pub>, steps: seq<Step>)
    ensures IsRun(ss, steps)
    ensures var s := ss[|ss| - 1];
      && s.hub == Writing(0, [0], [[]]) && s.accepted == [Message([], [])]
      && s.peers == [NEW_PEER.(subscriptions := [[]])]
  {
    hide IsRun;
    var m, everything: Bytes := Message([], []), [];
    var s0 := Start(1);
    ss, steps := [s0], [];
    assert IsRun(ss, steps) by { IsRunStart(1); }
    Extended(ss, steps, Register);
    var s1 := Next(s0, Register);
    ss, steps := ss + [s1], steps + [Register];
    assert s1.peers == [NEW_PEER];
    Extended(ss, steps, Subscribe(0, everything));
    var s2 := Next(s1, Subscribe(0, everything));
    ss, steps := ss + [s2], steps + [Subscribe(0, everything)];
    assert Subscribed([], everything) == [everything];
    assert s2.peers == [NEW_PEER.(subscriptions := [everything])];
    Extended(ss, steps, Send(m));
    var s3 := Next(s2, Send(m));
    ss, steps := ss + [s3], steps + [Send(m)];
    assert s3.queue == [0] && s3.accepted == [m];
    Extended(ss, steps, Recv);
    var s4 := Next(s3, Recv);
    ss, steps := ss + [s4], steps + [Recv];
    assert AliveFrom(s3.peers, 1) == [];
    assert s4.hub == Visiting(0, [0]);
    assert everything in [everything] && everything <= m.topic;
    Extended(ss, steps, Match);
    ss, steps := ss + [Next(s4, Match)], steps + [Match];
  }

  lemma IsRunStart(hwm: nat)
    ensures IsRun([Start(hwm)], [])
  {}

  /** A run in which the code does break the stream: the hub's write times out after one byte, and before the hub
      kills the peer, its reader thread answers a PING. */
  lemma TornByAPong() returns (ss: seq<Pub>, steps: seq<Step>)
    ensures IsRun(ss, steps) && |ss[|ss| - 1].peers| == 1
    ensures ss[|ss| - 1].peers[0].wire == [1, 4, 5, 4, 80, 79, 78, 71]
    ensures !Aligned(ss[|ss| - 1].peers[0])
  {
    ss, steps := AboutToWrite();
    hide IsRun, ItemBytes;
    var s5 := ss[|ss| - 1];
    PongIs(s5.accepted);
    EmptyMessageIs(s5.accepted);
    var s6 := Next(s5, HubWrite(1));
    Extended(ss, steps, HubWrite(1));
    ss, steps := ss + [s6], steps + [HubWrite(1)];
    var s7 := Next(s6, Ping(0, 7));
    Extended(ss, steps, Ping(0, 7));
    ss, steps := ss + [s7], steps + [Ping(0, 7)];
    assert s7.peers[0].wire[1] == 4 && s7.peers[0].intended[1] == 0;
  }

  // ---- What the subscriber decodes ----

  /** The messages a subscriber reads out of the bytes that have arrived. */
  function Decode(s: Bytes): seq<seq<Frame>>
    decreases |s|
  {
    match ParseMessage(s)
    case Got(fs, rest) => [fs] + Decode(rest)
    case _ => []
  }

  function FramesUpTo(accepted: seq<Message>, items: seq<Item>, k: nat): seq<seq<Frame>>
    requires k <= |items| && Indexed(accepted, items)
  {
    if k == 0 then [] else [ItemFrames(accepted, items[0])] + FramesUpTo(accepted, items[1..], k - 1)
  }

  lemma {:induction false} AllBytesHead(accepted: seq<Message>, items: seq<Item>)
    requires items != [] && Indexed(accepted, items)
    ensures AllBytes(accepted, items) == ItemBytes(accepted, items[0]) + AllBytes(accepted, items[1..])
  {
    hide ItemBytes;
    var n := |items|;
    if n == 1 {
      assert items[..0] == [] && items[1..] == [];
      assert AllBytes(accepted, items[..0]) == [];
    } else {
      var init, last := items[..n - 1], ItemBytes(accepted, items[n - 1]);
      AllBytesHead(accepted, init);
      assert init[1..] == items[1..][..n - 2] && items[1..][n - 2] == items[n - 1];
      var middle := AllBytes(accepted, init[1..]);
      assert AllBytes(accepted, items[1..]) == middle + last;
      assert ItemBytes(accepted, items[0]) + middle + last == ItemBytes(accepted, items[0]) + (middle + last);
    }
  }

  ghost predicate MessagesWithinCaps(accepted: seq<Message>) {
    forall i :: 0 <= i < |accepted| ==> WithinCaps(Frames(accepted[i]))
  }

  lemma PrefixSplit(wire: Bytes, head: Bytes, rest: Bytes)
    requires wire <= head + rest
    ensures |wire| < |head| ==> wire <= head
    ensures |wire| >= |head| ==> wire == head + wire[|head|..] && wire[|head|..] <= rest
  {
    assert wire == (head + rest)[..|wire|];
    if |wire| >= |head| {
      assert wire[..|head|] == head;
      assert wire[|head|..] == rest[..|wire| - |head|];
    } else {
      assert wire == head[..|wire|];
    }
  }

  lemma DecodeStops(s: Bytes)
    requires !ParseMessage(s).Got?
    ensures Decode(s) == []
  {}

  lemma DecodeMore(s: Bytes, fs: seq<Frame>, rest: Bytes)
    requires ParseMessage(s) == Got(fs, rest)
    ensures Decode(s) == [fs] + Decode(rest)
  {}

  lemma FramesUpToMore(accepted: seq<Message>, items: seq<Item>, j: nat)
    requires items != [] && Indexed(accepted, items)
    ensures FramesUpTo(accepted, items, 0) == []
    ensures j < |items| ==> FramesUpTo(accepted, items, j + 1) == [ItemFrames(accepted, items[0])] + FramesUpTo(accepted, items[1..], j)
  {}

  lemma DecodesHead(fs: seq<Frame>, wire: Bytes, more: Bytes)
    requires fs != [] && WithinCaps(fs) && wire <= MessageBytes(fs) + more
    ensures var size := |MessageBytes(fs)|;
      if |wire| < size then Decode(wire) == []
      else wire[size..] <= more && Decode(wire) == [fs] + Decode(wire[size..])
  {
    assert Addressable(fs);
    hide MessageBytes, ParseMessage, WithinCaps, Addressable, Decode;
    var head := MessageBytes(fs);
    PrefixSplit(wire, head, more);
    if |wire| < |head| {
      CutShortMessage(fs, wire);
      DecodeStops(wire);
    } else {
      MessageRoundTrip(fs, wire[|head|..]);
      DecodeMore(wire, fs, wire[|head|..]);
    }
  }

  /** `k` items have arrived whole among the first `n` bytes, and no more. */
  ghost predicate Whole(accepted: seq<Message>, items: seq<Item>, n: nat, k: nat)
    requires Indexed(accepted, items)
  {
    && k <= |items|
    && |AllBytes(accepted, items[..k])| <= n
    && (k < |items| ==> n < |AllBytes(accepted, items[..k + 1])|)
  }

  lemma WholeNone(accepted: seq<Message>, items: seq<Item>, n: nat)
    requires Indexed(accepted, items) && (items != [] ==> n < |ItemBytes(accepted, items[0])|)
    ensures Whole(accepted, items, n, 0)
  {
    hide ItemBytes;
    if items != [] {
      AllBytesHead(accepted, items[..1]);
      assert items[..1][1..] == [];
    }
  }

  lemma WholeMore(accepted: seq<Message>, items: seq<Item>, n: nat, j: nat)
    requires items != [] && Indexed(accepted, items) && |ItemBytes(accepted, items[0])| <= n
    requires Whole(accepted, items[1..], n - |ItemBytes(accepted, items[0])|, j)
    ensures Whole(accepted, items, n, j + 1)
  {
    hide ItemBytes, AllBytes;
    AllBytesHead(accepted, items[..j + 1]);
    assert items[..j + 1][1..] == items[1..][..j];
    if j + 1 < |items| {
      AllBytesHead(accepted, items[..j + 2]);
      assert items[..j + 2][1..] == items[1..][..j + 1];
    }
  }

  /** Once all the bytes of its items have arrived, all of them have. */
  lemma WholeAll(accepted: seq<Message>, items: seq<Item>, n: nat, k: nat)
    requires Indexed(accepted, items) && Whole(accepted, items, n, k) && n >= |AllBytes(accepted, items)|
    ensures k == |items|
  {
    if k < |items| {
      AllBytesGrow(accepted, items, k + 1);
    }
  }

  lemma {:induction false} AllBytesGrow(accepted: seq<Message>, items: seq<Item>, k: nat)
    requires Indexed(accepted, items) && k <= |items|
    ensures |AllBytes(accepted, items[..k])| <= |AllBytes(accepted, items)|
  {
    hide ItemBytes;
    if k == |items| {
      assert items[..k] == items;
    } else {
      var front := items[..|items| - 1];
      AllBytesGrow(accepted, front, k);
      assert front[..k] == items[..k];
    }
  }

  /** Bytes that begin a list of whole items decode to those of them that arrived whole, and nothing else. */
  lemma {:induction false} DecodesItems(accepted: seq<Message>, items: seq<Item>, wire: Bytes) returns (k: nat)
    requires Indexed(accepted, items)
    requires MessagesWithinCaps(accepted) && wire <= AllBytes(accepted, items)
    ensures Whole(accepted, items, |wire|, k) && Decode(wire) == FramesUpTo(accepted, items, k)
    decreases |items|
  {
    hide Indexed, MessageBytes, AllBytes, MessagesWithinCaps, WithinCaps, ItemFrames, Decode, FramesUpTo, Whole, ItemBytes;
    k := 0;
    if items == [] {
      NoItems(accepted, items, wire);
      WholeNone(accepted, items, |wire|);
    } else {
      FirstItem(accepted, items);
      var fs, rest := ItemFrames(accepted, items[0]), items[1..];
      AllBytesHead(accepted, items);
      DecodesHead(fs, wire, AllBytes(accepted, rest));
      if |wire| >= |MessageBytes(fs)| {
        var j := DecodesItems(accepted, rest, wire[|MessageBytes(fs)|..]);
        WholeBound(accepted, rest, |wire| - |MessageBytes(fs)|, j);
        FramesUpToMore(accepted, items, j);
        WholeMore(accepted, items, |wire|, j);
        k := j + 1;
      } else {
        WholeNone(accepted, items, |wire|);
      }
      WholeBound(accepted, items, |wire|, k);
    }
  }

  lemma WholeBound(accepted: seq<Message>, items: seq<Item>, n: nat, k: nat)
    requires Indexed(accepted, items) && Whole(accepted, items, n, k)
    ensures k <= |items|
  {}

  lemma NoItems(accepted: seq<Message>, items: seq<Item>, wire: Bytes)
    requires items == [] && Indexed(accepted, items) && wire <= AllBytes(accepted, items)
    ensures Decode(wire) == FramesUpTo(accepted, items, 0)
  {
    assert wire == [];
  }

  lemma FirstItem(accepted: seq<Message>, items: seq<Item>)
    requires items != [] && Indexed(accepted, items) && MessagesWithinCaps(accepted)
    ensures items[0].Sent? ==> items[0].index < |accepted|
    ensures WithinCaps(ItemFrames(accepted, items[0])) && ItemFrames(accepted, items[0]) != []
    ensures ItemBytes(accepted, items[0]) == MessageBytes(ItemFrames(accepted, items[0]))
    ensures Indexed(accepted, items[1..]) && FramesUpTo(accepted, items, 0) == []
  {}

  lemma CutShortMessage(fs: seq<Frame>, t: Bytes)
    requires fs != [] && WithinCaps(fs) && t <= MessageBytes(fs) && |t| < |MessageBytes(fs)|
    ensures ParseMessage(t) == Eof
  {
    CutShort(fs, [], t);
  }

  /** Main: whatever has reached a peer whose stream is meaningful decodes to exactly the items that arrived whole, in order,
      and to all of them when nothing is missing; so its bus messages are a subsequence of the accepted ones, each of which
      it had subscribed to. */
  lemma SubscriberDecodes(ss: seq<Pub>, steps: seq<Step>, i: nat, p: nat) returns (k: nat)
    requires IsRun(ss, steps) && i < |ss| && p < |ss[i].peers|
    requires MessagesWithinCaps(ss[i].accepted) && Aligned(ss[i].peers[p])
    ensures var s, peer := ss[i], ss[i].peers[p];
      && InOrder(s.accepted, peer.items, |s.accepted|)
      && Indexed(s.accepted, peer.items)
      && Whole(s.accepted, peer.items, |peer.wire|, k)
      && (peer.wire == peer.intended ==> k == |peer.items|)
      && Decode(peer.wire) == FramesUpTo(s.accepted, peer.items, k)
  {
    RunsStayValid(ss, steps, i);
    hide IsRun, Next, Enabled, Decode, FramesUpTo, AllBytes, Matches, Whole;
    var s, peer := ss[i], ss[i].peers[p];
    assert peer in s.peers;
    k := DecodesItems(s.accepted, peer.items, peer.wire);
    WholeBound(s.accepted, peer.items, |peer.wire|, k);
    if peer.wire == peer.intended {
      WholeAll(s.accepted, peer.items, |peer.wire|, k);
    }
  }

  // ---- What a subscriber can say ----

  datatype Request = AnswerPing | Add(topic: Bytes) | Remove(topic: Bytes) | Ignore

  /** What the reader thread makes of a message from the subscriber. */
  function RequestOf(frames: seq<Frame>): Request {
    if |frames| != 1 then Ignore
    else
      var f := frames[0];
      if f.command then
        if [4, 80, 73, 78, 71] <= f.body then AnswerPing else Ignore
      else if f.body != [] && f.body[0] == 1 then Add(f.body[1..])
      else if f.body != [] && f.body[0] == 0 then Remove(f.body[1..])
      else Ignore
  }

  /** What the reader thread acts on, of all messages: a lone command whose name is PING, and a lone frame that is no command
      and begins with a byte 1, to subscribe to what follows it, or 0, to cancel it. */
  lemma RequestExactly(frames: seq<Frame>)
    ensures RequestOf(frames) == AnswerPing <==>
            exists rest :: frames == [Frame(true, [4, 80, 73, 78, 71] + rest)]
    ensures forall topic :: RequestOf(frames) == Add(topic) <==> frames == [Frame(false, [1] + topic)]
    ensures forall topic :: RequestOf(frames) == Remove(topic) <==> frames == [Frame(false, [0] + topic)]
  {
    if |frames| == 1 {
      var body := frames[0].body;
      var ping: Bytes := [4, 80, 73, 78, 71];
      if ping <= body {
        assert body == ping + body[5..];
      }
      if body != [] {
        assert body == [body[0]] + body[1..];
      }
      assert forall topic: Bytes :: ([1] + topic)[1..] == topic && ([0] + topic)[1..] == topic;
      assert frames == [frames[0]];
    }
  }

  /** A subscription the peer puts on the wire is the one the publisher records, and nothing after it is swallowed. */
  lemma SubscriptionRead(topic: Bytes, add: bool, rest: Bytes)
    requires |topic| < MAX_FRAME_BYTES
    ensures var r := ParseMessage(MessageBytes([Frame(false, [if add then 1 else 0] + topic)]) + rest);
      r.Got? && r.rest == rest && RequestOf(r.value) == if add then Add(topic) else Remove(topic)
  {
    var first: Byte := if add then 1 else 0;
    var body: Bytes := [first] + topic;
    MessageRoundTrip([Frame(false, body)], rest);
    assert body[1..] == topic;
  }

  /** Subscribing and cancelling touch the one topic, however often it was added. */
  lemma {:induction false} SubscriptionsExact(subs: seq<Bytes>, topic: Bytes, t: Bytes)
    ensures t in Subscribed(subs, topic) <==> t in subs || t == topic
    ensures t in Cancelled(subs, topic) <==> t in subs && t != topic
  {
    if subs != [] {
      SubscriptionsExact(subs[1..], topic, t);
      assert subs == [subs[0]] + subs[1..];
    }
  }

  /** The subscription list as the reader thread edits it in place. */
  class SubscriptionList {
    var topics: seq<Bytes>

    method Apply(request: Request)
      modifies this
      ensures topics == match request
                        case Add(topic) => Subscribed(old(topics), topic)
                        case Remove(topic) => Cancelled(old(topics), topic)
                        case _ => old(topics)
    {
      match request {
        case Add(topic) =>
          if topic !in topics {
            topics := topics + [topic];
          }
        case Remove(topic) =>
          var kept, i := [], |topics|;
          while i > 0
            invariant 0 <= i <= |topics| && topics == old(topics)
            invariant kept == Cancelled(topics[i..], topic)
          {
            i := i - 1;
            assert topics[i..][1..] == topics[i + 1..];
            if topics[i] != topic {
              kept := [topics[i]] + kept;
            }
          }
          assert topics[0..] == topics;
          topics := kept;
        case _ =>
      }
    }
  }
}
