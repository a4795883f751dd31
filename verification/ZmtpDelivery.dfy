/**
 What one turn of the hub thread does: between taking a message off the queue and waiting for the next, it goes once to
 every peer that was alive at the start, and writes to those that then hold a prefix of the topic.
 */
module ZmtpDelivery {
  import opened Options
  import opened ZmtpCodec
  import opened ZmtpPub

  /** One of the subscriptions is a beginning of the topic. */
  ghost predicate HoldsPrefix(subscriptions: seq<Bytes>, topic: Bytes) {
    exists s, rest :: s in subscriptions && topic == s + rest
  }

  lemma MatchesExactly(subscriptions: seq<Bytes>, topic: Bytes)
    ensures Matches(subscriptions, topic) <==> HoldsPrefix(subscriptions, topic)
    ensures [] in subscriptions ==> HoldsPrefix(subscriptions, topic)
  {
    if Matches(subscriptions, topic) {
      var s :| s in subscriptions && s <= topic;
      assert topic == s + topic[|s|..];
    }
    var everything: Bytes := [];
    assert topic == everything + topic;
  }

  /** Main: the hub goes on to write to the peer it has come to exactly when one of the peer's subscriptions begins the
      topic, as the empty one does every topic. */
  lemma MatchExactly(s: Pub)
    requires Enabled(s, Match) && s.hub.targets != []
    ensures var peer, topic := s.peers[s.hub.targets[0]], s.accepted[s.hub.index].topic;
      && (Next(s, Match).hub.Writing? <==> HoldsPrefix(peer.subscriptions, topic))
      && ([] in peer.subscriptions ==> Next(s, Match).hub.Writing?)
  {
    MatchesExactly(s.peers[s.hub.targets[0]].subscriptions, s.accepted[s.hub.index].topic);
    hide Matches, HoldsPrefix;
  }

  /** Main: a message offered is taken exactly when fewer wait than the high-water mark, or than one; it is then the last in
      the queue, and the hub takes the one that has waited longest. */
  lemma SendExactly(s: Pub, msg: Message)
    requires Valid(s)
    ensures var r := Next(s, Send(msg));
      && (|s.queue| < s.hwm || s.queue == [] <==> r.accepted == s.accepted + [msg])
      && (|s.queue| < s.hwm || s.queue == [] <==> r.queue == s.queue + [|s.accepted|])
      && (r.accepted == s.accepted + [msg] || (r.accepted == s.accepted && r.queue == s.queue))
    ensures Enabled(s, Recv) ==>
      var r := Next(s, Recv); r.hub.index == |s.accepted| - |s.queue| && r.queue == s.queue[1..] && r.accepted == s.accepted
  {
    hide GoodPeer, GoodHub, AliveFrom;
    assert s.accepted != s.accepted + [msg] by {
      assert |s.accepted| < |s.accepted + [msg]|;
    }
    assert s.queue != s.queue + [|s.accepted|] by {
      assert |s.queue| < |s.queue + [|s.accepted|]|;
    }
  }

  // ---- The hub's steps towards one peer ----

  predicate Visits(s: Pub, step: Step, q: nat) {
    step.Match? && s.hub.Visiting? && s.hub.targets != [] && s.hub.targets[0] == q
  }

  /** The hub comes to the peer, and finds a subscription that begins the topic. */
  ghost predicate Wants(s: Pub, step: Step, q: nat, topic: Bytes) {
    Visits(s, step, q) && q < |s.peers| && HoldsPrefix(s.peers[q].subscriptions, topic)
  }

  predicate Tries(s: Pub, step: Step, q: nat) {
    step.HubWrite? && s.hub.Writing? && s.hub.targets != [] && s.hub.targets[0] == q
  }

  /** The hub's write to the peer gets something out. */
  predicate Puts(s: Pub, step: Step, q: nat) {
    Tries(s, step, q) && step.n > 0
  }

  datatype Tally = Tally(visits: nat, wants: nat, tries: nat, puts: nat)

  const NOTHING := Tally(0, 0, 0, 0)

  ghost function Tallied(t: Tally, s: Pub, step: Step, q: nat, topic: Bytes): Tally {
    Tally(t.visits + if Visits(s, step, q) then 1 else 0,
          t.wants + if Wants(s, step, q, topic) then 1 else 0,
          t.tries + if Tries(s, step, q) then 1 else 0,
          t.puts + if Puts(s, step, q) then 1 else 0)
  }

  /** What happened to the peer between state `a` and state `k` of a run. */
  ghost function TallyOf(ss: seq<Pub>, steps: seq<Step>, a: nat, k: nat, q: nat, topic: Bytes): Tally
    requires a <= k < |ss| && k <= |steps|
  {
    if k == a then NOTHING else Tallied(TallyOf(ss, steps, a, k - 1, q, topic), ss[k - 1], steps[k - 1], q, topic)
  }

  /** How often the message was put on the peer's stream. */
  function Copies(items: seq<Item>, index: nat): nat {
    if items == [] then 0
    else
      var last := items[|items| - 1];
      Copies(items[..|items| - 1], index) + if last.Sent? && last.index == index then 1 else 0
  }

  function SentTo(s: Pub, q: nat, index: nat): nat {
    if q < |s.peers| then Copies(s.peers[q].items, index) else 0
  }

  /** The peers the hub has yet to come to. */
  function Ahead(hub: Hub): seq<nat> {
    match hub
    case Idle => []
    case Visiting(_, targets) => targets
    case _ => if hub.targets == [] then [] else hub.targets[1..]
  }

  predicate Holding(hub: Hub, q: nat) {
    hub.Writing? && hub.targets != [] && hub.targets[0] == q
  }

  /** A peer the hub is done with, having written to it or not. */
  predicate Done(t: Tally, copies: nat) {
    t.visits == 1 && t.wants == t.tries <= 1 && t.puts <= t.tries && copies == t.puts
  }

  /** Where the hub is in its turn for one peer: not there yet, about to write to it, or done. */
  ghost predicate InTurn(hub: Hub, all: seq<nat>, q: nat, t: Tally, copies: nat) {
    if q !in all || q in Ahead(hub) then t == NOTHING && copies == 0
    else if Holding(hub, q) then t == Tally(1, 1, 0, 0) && copies == 0
    else Done(t, copies)
  }

  predicate OnTheWay(s: Pub, index: nat, all: seq<nat>, accepted: seq<Message>) {
    && !s.hub.Idle? && s.hub.index == index && index < |accepted| && accepted <= s.accepted
    && |s.hub.targets| <= |all| && s.hub.targets == all[|all| - |s.hub.targets|..]
  }

  lemma CopiesMore(items: seq<Item>, item: Item, index: nat)
    ensures Copies(items + [item], index) == Copies(items, index) + if item.Sent? && item.index == index then 1 else 0
  {
    assert (items + [item])[..|items|] == items;
  }

  lemma {:induction false} NotSentYet(items: seq<Item>, index: nat)
    requires forall i :: 0 <= i < |items| && items[i].Sent? ==> items[i].index < index
    ensures Copies(items, index) == 0
  {
    if items != [] {
      NotSentYet(items[..|items| - 1], index);
    }
  }

  lemma TailOfTail(all: seq<nat>, targets: seq<nat>)
    requires targets != [] && |targets| <= |all| && targets == all[|all| - |targets|..]
    ensures targets[1..] == all[|all| - |targets[1..]|..] && targets[0] in all
    ensures forall x :: x in targets <==> x == targets[0] || x in targets[1..]
  {
    assert all[|all| - |targets|] == targets[0];
    assert targets == [targets[0]] + targets[1..];
  }

  lemma OnceOnly(targets: seq<nat>, bound: nat)
    requires targets != [] && Distinct(targets, bound)
    ensures targets[0] !in targets[1..] && targets[0] < bound
  {}

  // ---- Every step, and whole turns ----

  /** Going on from the first target: what is known of it is complete, and nothing changes for the others. */
  lemma MovesOn(hub: Hub, next: Hub, all: seq<nat>, q: nat, t: Tally, u: Tally, copies: nat, now: nat)
    requires !hub.Idle? && hub.targets != [] && hub.targets[0] in all && hub.targets[0] !in hub.targets[1..]
    requires !next.Writing? && Ahead(next) == hub.targets[1..]
    requires InTurn(hub, all, q, t, copies)
    requires if q == hub.targets[0] then Done(u, now) else u == t && now == copies
    ensures InTurn(next, all, q, u, now)
  {
    assert hub.targets == [hub.targets[0]] + hub.targets[1..];
    assert q in hub.targets <==> q == hub.targets[0] || q in hub.targets[1..];
  }

  /** The hub stays on its way while it keeps its targets, or goes past the first. */
  lemma StaysOnTheWay(s: Pub, r: Pub, index: nat, all: seq<nat>, accepted: seq<Message>)
    requires OnTheWay(s, index, all, accepted) && s.hub.targets != []
    requires r.accepted == s.accepted && !r.hub.Idle? && r.hub.index == s.hub.index
    requires r.hub.targets == s.hub.targets || r.hub.targets == s.hub.targets[1..]
    ensures OnTheWay(r, index, all, accepted)
  {
    TailOfTail(all, s.hub.targets);
  }

  /** What the hub knows of its first target. */
  lemma FirstTarget(s: Pub, index: nat, all: seq<nat>, accepted: seq<Message>)
    requires Valid(s) && OnTheWay(s, index, all, accepted) && s.hub.targets != []
    ensures s.hub.targets[0] in all && s.hub.targets[0] !in s.hub.targets[1..]
    ensures s.hub.index == index < |accepted| <= |s.accepted| && s.accepted[index] == accepted[index] && !s.hub.Idle?
  {
    hide GoodPeer, Balanced;
    TailOfTail(all, s.hub.targets);
    OnceOnly(s.hub.targets, |s.peers|);
  }

  lemma AboutToTry(hub: Hub, all: seq<nat>, t: Tally, copies: nat)
    requires hub.Writing? && hub.targets != [] && hub.targets[0] in all && hub.targets[0] !in hub.targets[1..]
    requires InTurn(hub, all, hub.targets[0], t, copies)
    ensures t == Tally(1, 1, 0, 0) && copies == 0
  {}

  lemma MatchTallied(s: Pub, index: nat, topic: Bytes, q: nat, t: Tally)
    requires Enabled(s, Match) && s.hub.targets != [] && s.hub.index == index && s.accepted[index].topic == topic
    ensures var r, u, first := Next(s, Match), Tallied(t, s, Match, q, topic), q == s.hub.targets[0];
      && u == Tally(t.visits + if first then 1 else 0, t.wants + if first && r.hub.Writing? then 1 else 0, t.tries, t.puts)
      && SentTo(r, q, index) == SentTo(s, q, index)
  {
    hide Matches, HoldsPrefix, Copies;
    MatchesExactly(s.peers[s.hub.targets[0]].subscriptions, topic);
  }

  /** The hub stopping at its first target to write to it. */
  lemma Stops(hub: Hub, next: Hub, all: seq<nat>, q: nat, t: Tally, u: Tally, copies: nat)
    requires hub.Visiting? && hub.targets != [] && hub.targets[0] in all && hub.targets[0] !in hub.targets[1..]
    requires next.Writing? && next.targets == hub.targets && InTurn(hub, all, q, t, copies)
    requires u == if q == hub.targets[0] then Tally(t.visits + 1, t.wants + 1, t.tries, t.puts) else t
    ensures InTurn(next, all, q, u, copies)
  {
    assert hub.targets == [hub.targets[0]] + hub.targets[1..];
    assert q in hub.targets <==> q == hub.targets[0] || q in hub.targets[1..];
  }

  lemma NotYet(hub: Hub, all: seq<nat>, t: Tally, copies: nat)
    requires hub.Visiting? && hub.targets != [] && InTurn(hub, all, hub.targets[0], t, copies)
    ensures t == NOTHING && copies == 0
  {}

  lemma MatchInTurn(s: Pub, index: nat, all: seq<nat>, accepted: seq<Message>, q: nat, t: Tally)
    requires Valid(s) && Enabled(s, Match) && s.hub.targets != [] && OnTheWay(s, index, all, accepted)
    requires InTurn(s.hub, all, q, t, SentTo(s, q, index))
    ensures var r := Next(s, Match);
      && OnTheWay(r, index, all, accepted)
      && InTurn(r.hub, all, q, Tallied(t, s, Match, q, accepted[index].topic), SentTo(r, q, index))
  {
    hide Valid, Matches, Copies, Tallied, SentTo, InTurn, OnTheWay;
    FirstTarget(s, index, all, accepted);
    MatchTallied(s, index, accepted[index].topic, q, t);
    var r := Next(s, Match);
    StaysOnTheWay(s, r, index, all, accepted);
    var u, copies := Tallied(t, s, Match, q, accepted[index].topic), SentTo(s, q, index);
    if q == s.hub.targets[0] {
      NotYet(s.hub, all, t, copies);
    }
    if r.hub.Writing? {
      Stops(s.hub, r.hub, all, q, t, u, copies);
    } else {
      MovesOn(s.hub, r.hub, all, q, t, u, copies, copies);
    }
  }

  /** A write to the first target is in the peer's copies if it got anything out. */
  lemma WriteTallied(s: Pub, n: nat, index: nat, topic: Bytes, q: nat, t: Tally)
    requires Enabled(s, HubWrite(n)) && s.hub.index == index
    ensures var r, u, first := Next(s, HubWrite(n)), Tallied(t, s, HubWrite(n), q, topic), q == s.hub.targets[0];
      && u == Tally(t.visits, t.wants, t.tries + if first then 1 else 0, t.puts + if first && n > 0 then 1 else 0)
      && SentTo(r, q, index) == SentTo(s, q, index) + if first && n > 0 then 1 else 0
  {
    hide HoldsPrefix, Copies, ItemBytes;
    CopiesMore(s.peers[s.hub.targets[0]].items, Sent(s.hub.index, s.hub.matched), index);
  }

  lemma WriteInTurn(s: Pub, n: nat, index: nat, all: seq<nat>, accepted: seq<Message>, q: nat, t: Tally)
    requires Valid(s) && Enabled(s, HubWrite(n)) && OnTheWay(s, index, all, accepted)
    requires InTurn(s.hub, all, q, t, SentTo(s, q, index))
    ensures var r := Next(s, HubWrite(n));
      && OnTheWay(r, index, all, accepted)
      && InTurn(r.hub, all, q, Tallied(t, s, HubWrite(n), q, accepted[index].topic), SentTo(r, q, index))
  {
    hide Valid, Matches, Copies, ItemBytes, Tallied, SentTo, Written, InTurn, OnTheWay;
    FirstTarget(s, index, all, accepted);
    WriteTallied(s, n, index, accepted[index].topic, q, t);
    var r := Next(s, HubWrite(n));
    StaysOnTheWay(s, r, index, all, accepted);
    var u, copies := Tallied(t, s, HubWrite(n), q, accepted[index].topic), SentTo(s, q, index);
    if q == s.hub.targets[0] {
      AboutToTry(s.hub, all, t, copies);
    }
    MovesOn(s.hub, r.hub, all, q, t, u, copies, SentTo(r, q, index));
  }

  lemma MarkTallied(s: Pub, step: Step, index: nat, topic: Bytes, q: nat, t: Tally)
    requires (step.HubKill? || step.HubShut?) && Enabled(s, step) && s.hub.index == index
    ensures Tallied(t, s, step, q, topic) == t && SentTo(Next(s, step), q, index) == SentTo(s, q, index)
  {
    hide HoldsPrefix, Copies;
  }

  lemma Marked(hub: Hub, all: seq<nat>, t: Tally, copies: nat)
    requires (hub.HubKilling? || hub.HubShutting?) && hub.targets != []
    requires hub.targets[0] in all && hub.targets[0] !in hub.targets[1..] && InTurn(hub, all, hub.targets[0], t, copies)
    ensures Done(t, copies)
  {}

  lemma MarkInTurn(s: Pub, step: Step, index: nat, all: seq<nat>, accepted: seq<Message>, q: nat, t: Tally)
    requires Valid(s) && (step.HubKill? || step.HubShut?) && Enabled(s, step) && OnTheWay(s, index, all, accepted)
    requires InTurn(s.hub, all, q, t, SentTo(s, q, index))
    ensures var r := Next(s, step);
      && OnTheWay(r, index, all, accepted)
      && InTurn(r.hub, all, q, Tallied(t, s, step, q, accepted[index].topic), SentTo(r, q, index))
  {
    hide Valid, Matches, Copies, Tallied, SentTo, InTurn, OnTheWay, Done;
    FirstTarget(s, index, all, accepted);
    MarkTallied(s, step, index, accepted[index].topic, q, t);
    var r := Next(s, step);
    StaysOnTheWay(s, r, index, all, accepted);
    if q == s.hub.targets[0] {
      Marked(s.hub, all, t, SentTo(s, q, index));
    }
    MovesOn(s.hub, r.hub, all, q, t, t, SentTo(s, q, index), SentTo(s, q, index));
  }

  /** Steps of the other threads. */
  predicate OfOthers(step: Step) {
    !step.Recv? && !step.Match? && !step.HubWrite? && !step.HubKill? && !step.HubShut?
  }

  lemma OthersInTurn(s: Pub, step: Step, index: nat, all: seq<nat>, accepted: seq<Message>, q: nat, t: Tally)
    requires OfOthers(step) && Enabled(s, step) && OnTheWay(s, index, all, accepted)
    requires InTurn(s.hub, all, q, t, SentTo(s, q, index))
    ensures var r := Next(s, step);
      && OnTheWay(r, index, all, accepted)
      && InTurn(r.hub, all, q, Tallied(t, s, step, q, accepted[index].topic), SentTo(r, q, index))
  {
    hide Copies, ItemBytes, InTurn, HoldsPrefix;
    assert SentTo(Next(s, step), q, index) == SentTo(s, q, index) by {
      if step.Ping? {
        CopiesMore(s.peers[step.p].items, Pong, index);
      }
      assert Copies([], index) == 0 by { NotSentYet([], index); }
    }
    assert Tallied(t, s, step, q, accepted[index].topic) == t;
  }

  /** The hub is in the turn it began at state `a`. */
  ghost predicate SameTurn(ss: seq<Pub>, steps: seq<Step>, a: nat, k: nat) {
    && a < k < |ss| && k <= |steps| && steps[a].Recv?
    && forall j :: a < j < k ==> !ss[j].hub.Idle?
  }

  lemma TurnBegins(ss: seq<Pub>, steps: seq<Step>, a: nat, q: nat)
    requires IsRun(ss, steps) && a < |steps| && steps[a].Recv?
    ensures ss[a].queue != []
    ensures var index, all := ss[a].queue[0], AliveFrom(ss[a].peers, 0);
      && OnTheWay(ss[a + 1], index, all, ss[a].accepted)
      && InTurn(ss[a + 1].hub, all, q, TallyOf(ss, steps, a, a + 1, q, ss[a].accepted[index].topic), SentTo(ss[a + 1], q, index))
  {
    RunsStayValid(ss, steps, a);
    hide Copies, AliveFrom, Balanced, HoldsPrefix;
    var s := ss[a];
    assert Enabled(s, steps[a]) && ss[a + 1] == Next(s, steps[a]);
    FirstInLine(s);
    if q < |s.peers| {
      assert s.peers[q] in s.peers;
      NotSentYet(s.peers[q].items, s.queue[0]);
    }
    assert TallyOf(ss, steps, a, a, q, s.accepted[s.queue[0]].topic) == NOTHING;
  }

  lemma FirstInLine(s: Pub)
    requires Balanced(s) && s.queue != []
    ensures s.queue[0] == s.dequeued < |s.accepted|
  {}

  lemma {:induction false} TurnGoesOn(ss: seq<Pub>, steps: seq<Step>, a: nat, k: nat, q: nat)
    requires IsRun(ss, steps) && SameTurn(ss, steps, a, k) && !ss[k].hub.Idle?
    ensures ss[a].queue != [] && ss[a].queue[0] < |ss[a].accepted|
    ensures var index, all := ss[a].queue[0], AliveFrom(ss[a].peers, 0);
      && OnTheWay(ss[k], index, all, ss[a].accepted)
      && InTurn(ss[k].hub, all, q, TallyOf(ss, steps, a, k, q, ss[a].accepted[index].topic), SentTo(ss[k], q, index))
  {
    hide Valid, Next, Enabled, InTurn, OnTheWay, Tallied, SentTo, AliveFrom;
    if k == a + 1 {
      TurnBegins(ss, steps, a, q);
      assert OnTheWay(ss[k], ss[a].queue[0], AliveFrom(ss[a].peers, 0), ss[a].accepted);
      OnTheWayIs(ss[k], ss[a].queue[0], AliveFrom(ss[a].peers, 0), ss[a].accepted);
    } else {
      TurnGoesOn(ss, steps, a, k - 1, q);
      RunsStayValid(ss, steps, k - 1);
      assert Enabled(ss[k - 1], steps[k - 1]) && ss[k] == Next(ss[k - 1], steps[k - 1]);
      var index, all := ss[a].queue[0], AliveFrom(ss[a].peers, 0);
      var t := TallyOf(ss, steps, a, k - 1, q, ss[a].accepted[index].topic);
      StepInTurn(ss[k - 1], steps[k - 1], index, all, ss[a].accepted, q, t);
    }
  }

  lemma OnTheWayIs(s: Pub, index: nat, all: seq<nat>, accepted: seq<Message>)
    requires OnTheWay(s, index, all, accepted)
    ensures index < |accepted|
  {}

  lemma StepInTurn(s: Pub, step: Step, index: nat, all: seq<nat>, accepted: seq<Message>, q: nat, t: Tally)
    requires Valid(s) && Enabled(s, step) && OnTheWay(s, index, all, accepted) && !Next(s, step).hub.Idle?
    requires index < |accepted| && InTurn(s.hub, all, q, t, SentTo(s, q, index))
    ensures var r := Next(s, step);
      && OnTheWay(r, index, all, accepted)
      && InTurn(r.hub, all, q, Tallied(t, s, step, q, accepted[index].topic), SentTo(r, q, index))
  {
    hide Valid, InTurn, SentTo, Tallied;
    if OfOthers(step) {
      OthersInTurn(s, step, index, all, accepted, q, t);
    } else if step.Match? {
      MatchInTurn(s, index, all, accepted, q, t);
    } else if step.HubWrite? {
      WriteInTurn(s, step.n, index, all, accepted, q, t);
    } else {
      MarkInTurn(s, step, index, all, accepted, q, t);
    }
  }

  lemma TurnEnds(s: Pub, step: Step, index: nat, all: seq<nat>, accepted: seq<Message>, q: nat, t: Tally)
    requires Valid(s) && Enabled(s, step) && OnTheWay(s, index, all, accepted) && Next(s, step).hub.Idle?
    requires index < |accepted| && InTurn(s.hub, all, q, t, SentTo(s, q, index))
    ensures var r, u := Next(s, step), Tallied(t, s, step, q, accepted[index].topic);
      if q in all then Done(u, SentTo(r, q, index)) else u == NOTHING && SentTo(r, q, index) == 0
  {
    hide Balanced, GoodPeer, HoldsPrefix, Copies, Matches, ItemBytes, AliveFrom;
  }

  lemma {:induction false} AliveExactly(peers: seq<Peer>, i: nat, q: nat)
    requires i <= |peers|
    ensures q in AliveFrom(peers, i) <==> i <= q < |peers| && peers[q].alive
    decreases |peers| - i
  {
    if i < |peers| {
      AliveExactly(peers, i + 1, q);
    }
  }

  /** Main: from taking a message to waiting again, the hub comes exactly once to every peer that was alive at the start, and
      to no other; it writes to the peer once if the peer then holds a subscription that begins the topic, and not
      otherwise; and the peer is left with one copy of the message if that write got anything out, with none if not. */
  lemma TurnExactly(ss: seq<Pub>, steps: seq<Step>, a: nat, b: nat, q: nat)
    requires IsRun(ss, steps) && SameTurn(ss, steps, a, b) && ss[b].hub.Idle? && q < |ss[b].peers|
    ensures ss[a].queue != [] && ss[a].queue[0] == |ss[a].accepted| - |ss[a].queue|
    ensures var index := ss[a].queue[0];
      var t := TallyOf(ss, steps, a, b, q, ss[a].accepted[index].topic);
      && t.visits == (if q < |ss[a].peers| && ss[a].peers[q].alive then 1 else 0)
      && t.wants == t.tries <= t.visits && t.puts <= t.tries
      && Copies(ss[b].peers[q].items, index) == t.puts
  {
    hide Valid, Next, Enabled, InTurn, Tallied, AliveFrom, Copies;
    TurnBegins(ss, steps, a, q);
    RunsStayValid(ss, steps, a);
    assert ss[a].queue[0] == |ss[a].accepted| - |ss[a].queue| by {
      TakenInOrder(ss[a]);
    }
    assert b != a + 1;
    TurnGoesOn(ss, steps, a, b - 1, q);
    RunsStayValid(ss, steps, b - 1);
    assert Enabled(ss[b - 1], steps[b - 1]) && ss[b] == Next(ss[b - 1], steps[b - 1]);
    var index, all := ss[a].queue[0], AliveFrom(ss[a].peers, 0);
    TurnEnds(ss[b - 1], steps[b - 1], index, all, ss[a].accepted, q,
             TallyOf(ss, steps, a, b - 1, q, ss[a].accepted[index].topic));
    AliveExactly(ss[a].peers, 0, q);
  }

  lemma TakenInOrder(s: Pub)
    requires Valid(s) && s.queue != []
    ensures s.queue[0] == |s.accepted| - |s.queue|
  {
    hide GoodPeer, GoodHub;
  }

  // ---- The same, step by step ----

  lemma {:induction false} TallyMeans(ss: seq<Pub>, steps: seq<Step>, a: nat, k: nat, q: nat, topic: Bytes)
    requires a <= k < |ss| && k <= |steps|
    ensures var t := TallyOf(ss, steps, a, k, q, topic);
      && (t.visits > 0 <==> exists j :: a <= j < k && Visits(ss[j], steps[j], q))
      && (t.wants > 0 <==> exists j :: a <= j < k && Wants(ss[j], steps[j], q, topic))
      && (t.tries > 0 <==> exists j :: a <= j < k && Tries(ss[j], steps[j], q))
      && (t.puts > 0 <==> exists j :: a <= j < k && Puts(ss[j], steps[j], q))
  {
    hide Visits, Wants, Tries, Puts;
    if k > a {
      TallyMeans(ss, steps, a, k - 1, q, topic);
    }
  }

  /** Main: so a peer has the message after the turn exactly when it was alive at the start, held a subscription that begins
      the topic when the hub came to it, and the write got something out; and never more than once. */
  lemma DeliveredExactly(ss: seq<Pub>, steps: seq<Step>, a: nat, b: nat, q: nat)
    requires IsRun(ss, steps) && SameTurn(ss, steps, a, b) && ss[b].hub.Idle? && q < |ss[b].peers|
    ensures ss[a].queue != [] && ss[a].queue[0] < |ss[a].accepted|
    ensures var index := ss[a].queue[0]; var topic := ss[a].accepted[index].topic;
      && Copies(ss[b].peers[q].items, index) <= 1
      && (q < |ss[a].peers| && ss[a].peers[q].alive <==> exists j :: a <= j < b && Visits(ss[j], steps[j], q))
      && ((exists j :: a <= j < b && Wants(ss[j], steps[j], q, topic)) <==> exists j :: a <= j < b && Tries(ss[j], steps[j], q))
      && (Copies(ss[b].peers[q].items, index) == 1 <==> exists j :: a <= j < b && Puts(ss[j], steps[j], q))
  {
    hide TallyOf, Visits, Wants, Tries, Puts, Copies, IsRun;
    TurnExactly(ss, steps, a, b, q);
    TallyMeans(ss, steps, a, b, q, ss[a].accepted[ss[a].queue[0]].topic);
  }

  // ---- What a peer holds ----

  lemma RequestsHold(s: Pub, step: Step, p: nat, topic: Bytes)
    requires Enabled(s, step) && p < |Next(s, step).peers|
    ensures var r := Next(s, step).peers[p].subscriptions;
      topic in r <==>
        step == Subscribe(p, topic) || (step != Cancel(p, topic) && p < |s.peers| && topic in s.peers[p].subscriptions)
  {
    hide ItemBytes, Matches, AliveFrom, Subscribed, Cancelled;
    if step.Subscribe? && step.p == p {
      SubscriptionsExact(s.peers[p].subscriptions, step.topic, topic);
    } else if step.Cancel? && step.p == p {
      SubscriptionsExact(s.peers[p].subscriptions, step.topic, topic);
    }
  }

  /** The peer asked for the topic at step `j`, and has not cancelled it up to state `k`. */
  ghost predicate AskedAt(steps: seq<Step>, k: nat, p: nat, topic: Bytes, j: int)
    requires k <= |steps|
  {
    0 <= j < k && steps[j] == Subscribe(p, topic) && forall i :: j < i < k ==> steps[i] != Cancel(p, topic)
  }

  lemma AskedOn(steps: seq<Step>, k: nat, next: nat, p: nat, topic: Bytes)
    requires k < |steps| && next == k + 1
    ensures (exists j :: AskedAt(steps, next, p, topic, j)) <==>
            steps[k] == Subscribe(p, topic) || (steps[k] != Cancel(p, topic) && exists j :: AskedAt(steps, k, p, topic, j))
  {
    if j :| AskedAt(steps, next, p, topic, j) {
      assert j == k || AskedAt(steps, k, p, topic, j);
    }
    if steps[k] == Subscribe(p, topic) {
      assert AskedAt(steps, next, p, topic, k);
    }
    if steps[k] != Cancel(p, topic) && exists j :: AskedAt(steps, k, p, topic, j) {
      var j :| AskedAt(steps, k, p, topic, j);
      assert AskedAt(steps, next, p, topic, j);
    }
  }

  /** Main: over any run, a peer holds exactly the topics it has asked for and not cancelled since. */
  lemma {:induction false} HeldExactly(ss: seq<Pub>, steps: seq<Step>, k: nat, p: nat, topic: Bytes)
    requires IsRun(ss, steps) && k < |ss| && p < |ss[k].peers|
    ensures topic in ss[k].peers[p].subscriptions <==> exists j :: AskedAt(steps, k, p, topic, j)
  {
    hide Next, Enabled, AskedAt;
    if k > 0 {
      assert Enabled(ss[k - 1], steps[k - 1]) && ss[k] == Next(ss[k - 1], steps[k - 1]);
      RequestsHold(ss[k - 1], steps[k - 1], p, topic);
      AskedOn(steps, k - 1, k, p, topic);
      if p < |ss[k - 1].peers| {
        HeldExactly(ss, steps, k - 1, p, topic);
      } else {
        NeverAsked(ss, steps, k - 1, p, topic);
      }
    }
  }

  /** A peer that has not registered has asked for nothing. */
  lemma {:induction false} NeverAsked(ss: seq<Pub>, steps: seq<Step>, k: nat, p: nat, topic: Bytes)
    requires IsRun(ss, steps) && k < |ss| && |ss[k].peers| <= p
    ensures !exists j :: AskedAt(steps, k, p, topic, j)
  {
    PeersOnlyJoin(ss, steps, k);
    forall j | 0 <= j < k ensures steps[j] != Subscribe(p, topic) {
      assert Enabled(ss[j], steps[j]) && |ss[j].peers| <= |ss[k].peers|;
    }
  }

  // ---- The threads go on ----

  /** How many steps of its own the hub can still take before it waits again. */
  function Remaining(hub: Hub): nat {
    match hub
    case Idle => 0
    case Visiting(_, targets) => 4 * |targets| + 1
    case Writing(_, targets, _) => 4 * |targets|
    case HubKilling(_, targets) => if targets == [] then 0 else 4 * |targets| - 1
    case HubShutting(_, targets) => if targets == [] then 0 else 4 * |targets| - 2
  }

  /** Main: no thread is ever stuck. The hub can take its next step whenever it is not waiting for a message, a write that gets
      anything or nothing out included, and is done after at most four steps a peer; a reader that is to kill and shut its
      peer can. */
  lemma NeverStuck(s: Pub, step: Step, p: nat, n: nat)
    requires Valid(s) && p < |s.peers| && Enabled(s, step)
    ensures s.hub.Visiting? ==> Enabled(s, Match)
    ensures s.hub.Writing? ==> Enabled(s, HubWrite(0))
    ensures s.hub.Writing? && s.peers[s.hub.targets[0]].open ==>
      (n <= |ItemBytes(s.accepted, Sent(s.hub.index, s.hub.matched))| ==> Enabled(s, HubWrite(n)))
    ensures s.hub.HubKilling? ==> Enabled(s, HubKill)
    ensures s.hub.HubShutting? ==> Enabled(s, HubShut)
    ensures s.peers[p].reader.Killing? ==> Enabled(s, ReaderKill(p))
    ensures s.peers[p].reader.Shutting? ==> Enabled(s, ReaderShut(p))
    ensures OfOthers(step) ==> Remaining(Next(s, step).hub) == Remaining(s.hub)
    ensures !OfOthers(step) && !step.Recv? ==> Remaining(Next(s, step).hub) < Remaining(s.hub)
  {
    hide ItemBytes, Matches, GoodPeer, AliveFrom, Balanced;
  }

  // ---- How a peer ends ----

  /** The peer hangs up, or its reader's PONG stops short of its seven bytes. */
  predicate HangsUp(step: Step, p: nat) {
    step == HangUp(p) || (step.Ping? && step.p == p && step.n < 7)
  }

  predicate Kills(s: Pub, step: Step, p: nat) {
    step == ReaderKill(p) || (step.HubKill? && s.hub.HubKilling? && s.hub.targets != [] && s.hub.targets[0] == p)
  }

  predicate Shuts(s: Pub, step: Step, p: nat) {
    step == ReaderShut(p) || (step.HubShut? && s.hub.HubShutting? && s.hub.targets != [] && s.hub.targets[0] == p)
  }

  lemma StepEnds(s: Pub, step: Step, p: nat)
    requires Enabled(s, step) && p < |Next(s, step).peers|
    ensures var r, was := Next(s, step).peers[p], if p < |s.peers| then s.peers[p] else NEW_PEER;
      && (r.reader.Reading? <==> was.reader.Reading? && !HangsUp(step, p))
      && (r.alive <==> was.alive && !Kills(s, step, p))
      && (r.open <==> was.open && !Shuts(s, step, p))
  {
    PongIs(s.accepted);
    hide ItemBytes, Matches, AliveFrom, Subscribed, Cancelled;
  }

  lemma NotForNewcomers(s: Pub, step: Step, p: nat)
    requires Enabled(s, step) && |s.peers| <= p
    ensures !HangsUp(step, p) && !Kills(s, step, p) && !Shuts(s, step, p)
  {
    hide ItemBytes;
  }

  /** Main: over any run, a peer's reader reads until the peer hangs up or a PONG stops short; the peer is alive until the hub or
      its reader kills it; and its stream is open until one of them shuts it. */
  lemma {:induction false} EndsExactly(ss: seq<Pub>, steps: seq<Step>, k: nat, p: nat)
    requires IsRun(ss, steps) && k < |ss| && p < |ss[k].peers|
    ensures ss[k].peers[p].reader.Reading? <==> !exists j :: 0 <= j < k && HangsUp(steps[j], p)
    ensures ss[k].peers[p].alive <==> !exists j :: 0 <= j < k && Kills(ss[j], steps[j], p)
    ensures ss[k].peers[p].open <==> !exists j :: 0 <= j < k && Shuts(ss[j], steps[j], p)
  {
    hide Next, Enabled, HangsUp, Kills, Shuts;
    if k > 0 {
      assert Enabled(ss[k - 1], steps[k - 1]) && ss[k] == Next(ss[k - 1], steps[k - 1]);
      StepEnds(ss[k - 1], steps[k - 1], p);
      if p < |ss[k - 1].peers| {
        EndsExactly(ss, steps, k - 1, p);
      } else {
        PeersOnlyJoin(ss, steps, k - 1);
        forall j | 0 <= j < k - 1
          ensures !HangsUp(steps[j], p) && !Kills(ss[j], steps[j], p) && !Shuts(ss[j], steps[j], p)
        {
          assert Enabled(ss[j], steps[j]);
          NotForNewcomers(ss[j], steps[j], p);
        }
      }
    }
  }

  /** How many threads are about to shut the peer's stream. */
  function Shutters(s: Pub, p: nat): nat
    requires p < |s.peers|
  {
    (if s.hub.HubShutting? && s.hub.targets != [] && s.hub.targets[0] == p then 1 else 0)
    + if s.peers[p].reader.Shutting? then 1 else 0
  }

  /** A live peer's stream is open and nobody is about to shut it; a dead one's is shut, or one thread is about to. */
  ghost predicate ShutOnce(s: Pub, p: nat)
    requires p < |s.peers|
  {
    if s.peers[p].alive then s.peers[p].open && Shutters(s, p) == 0
    else Shutters(s, p) == if s.peers[p].open then 1 else 0
  }

  lemma StepShutsOnce(s: Pub, step: Step, p: nat)
    requires Valid(s) && Enabled(s, step) && p < |Next(s, step).peers| && (p < |s.peers| ==> ShutOnce(s, p))
    ensures ShutOnce(Next(s, step), p)
  {
    hide ItemBytes, Matches, AliveFrom, Subscribed, Cancelled, GoodPeer, Balanced;
  }

  /** Main: over any run, whichever threads kill a peer and however often, exactly one of them shuts its stream. */
  lemma {:induction false} RunsShutOnce(ss: seq<Pub>, steps: seq<Step>, k: nat, p: nat)
    requires IsRun(ss, steps) && k < |ss| && p < |ss[k].peers|
    ensures ShutOnce(ss[k], p)
  {
    hide Next, Enabled, Valid, ShutOnce;
    if k > 0 {
      assert Enabled(ss[k - 1], steps[k - 1]) && ss[k] == Next(ss[k - 1], steps[k - 1]);
      RunsStayValid(ss, steps, k - 1);
      if p < |ss[k - 1].peers| {
        RunsShutOnce(ss, steps, k - 1, p);
      }
      StepShutsOnce(ss[k - 1], steps[k - 1], p);
    }
  }
}
