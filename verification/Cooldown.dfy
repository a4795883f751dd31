/**
 Alert dispatch: several workers claim a cooldown slot for a (rule, subject), deliver, and give
 the slot back if the delivery fails. Claims and releases take the lock one at a time; the clock
 is read before the lock, and a delivery can outlast its own cooldown.
 */
module Cooldown {
  import opened Options

  /** A rule ID, a NUL and a subject. */
  type Key = string

  const SWEEP_ABOVE := 4096
  const QUEUE_DEPTH := 512

  function KeyOf(ruleId: string, subject: string): Key {
    ruleId + ['\0'] + subject
  }

  /** Rule IDs free of NUL keep every (rule, subject) apart. */
  lemma {:induction false} KeysApart(r1: string, s1: string, r2: string, s2: string)
    requires '\0' !in r1 && '\0' !in r2
    ensures KeyOf(r1, s1) == KeyOf(r2, s2) <==> r1 == r2 && s1 == s2
  {
    var k1, k2 := KeyOf(r1, s1), KeyOf(r2, s2);
    if r1 != [] && r2 != [] {
      KeysApart(r1[1..], s1, r2[1..], s2);
      assert k1 == [r1[0]] + KeyOf(r1[1..], s1) && k2 == [r2[0]] + KeyOf(r2[1..], s2);
      assert r1 == [r1[0]] + r1[1..] && r2 == [r2[0]] + r2[1..];
      assert k1[1..] == KeyOf(r1[1..], s1) && k2[1..] == KeyOf(r2[1..], s2);
    } else {
      assert k1[0] == (if r1 == [] then '\0' else r1[0]) && k2[0] == (if r2 == [] then '\0' else r2[0]);
      assert r1 == [] ==> k1[1..] == s1;
      assert r2 == [] ==> k2[1..] == s2;
    }
  }

  // ---- The cooldown map ----

  type Slots = map<Key, int>

  predicate Suppresses(slots: Slots, key: Key, now: int) {
    key in slots && now < slots[key]
  }

  function Swept(slots: Slots, now: int): Slots {
    map k | k in slots && !(now > slots[k]) :: slots[k]
  }

  /** The map after a claim is let through. */
  function Claimed(slots: Slots, key: Key, now: int, cooldown: int): Slots {
    var s := slots[key := now + cooldown];
    if |s| > SWEEP_ABOVE then Swept(s, now) else s
  }

  /** Sweeping changes a later answer only to a worker whose clock reading is older than the sweeper's: exactly when
      the reading is before the end of a slot that the sweep's own reading is past. */
  lemma SweepExact(slots: Slots, now: int, key: Key, later: int)
    ensures Suppresses(Swept(slots, now), key, later) == Suppresses(slots, key, later)
            <==> !(key in slots && later < slots[key] < now)
    ensures later >= now ==> Suppresses(Swept(slots, now), key, later) == Suppresses(slots, key, later)
  {
    assert key in Swept(slots, now) <==> key in slots && slots[key] >= now;
  }

  // ---- Workers ----

  datatype Status = Pending | Delivered | Failed

  datatype Claim = Claim(key: Key, at: int, until: int, status: Status)

  /** `claims` lists every claim let through, in the order the lock was taken; `clock` is the newest reading used. */
  datatype State = State(slots: Slots, claims: seq<Claim>, clock: int)

  datatype Step =
    | TryClaim(key: Key, now: int, cooldown: int)
    | Deliver(i: nat)
    | Fail(i: nat)

  predicate Enabled(s: State, step: Step) {
    match step
    case TryClaim(_, _, _) => true
    case Deliver(i) => i < |s.claims| && s.claims[i].status.Pending?
    case Fail(i) => i < |s.claims| && s.claims[i].status.Pending?
  }

  function Next(s: State, step: Step): State
    requires Enabled(s, step)
  {
    match step
    case TryClaim(key, now, cooldown) =>
      var clock := if now > s.clock then now else s.clock;
      if Suppresses(s.slots, key, now) then s.(clock := clock)
      else State(Claimed(s.slots, key, now, cooldown), s.claims + [Claim(key, now, now + cooldown, Pending)], clock)
    case Deliver(i) => s.(claims := s.claims[i := s.claims[i].(status := Delivered)])
    case Fail(i) => s.(claims := s.claims[i := s.claims[i].(status := Failed)], slots := s.slots - {s.claims[i].key})
  }

  /** Steps taken one after another, from any state. */
  ghost predicate IsPath(ss: seq<State>, steps: seq<Step>) {
    && |ss| == |steps| + 1
    && forall i :: 0 <= i < |steps| ==> Enabled(ss[i], steps[i]) && ss[i + 1] == Next(ss[i], steps[i])
  }

  ghost predicate IsRun(ss: seq<State>, steps: seq<Step>) {
    IsPath(ss, steps) && ss[0].slots == map[] && ss[0].claims == []
  }

  /** A claim not given back holds later ones of its key off for its cooldown. */
  ghost predicate Spaced(s: State) {
    forall i, j :: 0 <= i < j < |s.claims| && s.claims[i].key == s.claims[j].key && !s.claims[i].status.Failed? ==>
      s.claims[j].at >= s.claims[i].until
  }

  /** Every claim still running, and not given back, has a slot that holds others off. */
  ghost predicate Shielded(s: State) {
    forall i :: 0 <= i < |s.claims| && !s.claims[i].status.Failed? && s.claims[i].until > s.clock ==>
      s.claims[i].key in s.slots && s.slots[s.claims[i].key] >= s.claims[i].until
  }

  /** No other claim of this one's key is still running: what a release would have to see to be safe. */
  ghost predicate Clear(s: State, i: nat)
    requires i < |s.claims|
  {
    forall j :: 0 <= j < |s.claims| && j != i && s.claims[j].key == s.claims[i].key && !s.claims[j].status.Failed? ==>
      s.claims[j].until <= s.clock
  }

  /** The clock does not run backwards between lock takings, and slots are given back only when clear. */
  ghost predicate Orderly(s: State, step: Step)
    requires Enabled(s, step)
  {
    && (step.TryClaim? ==> step.now >= s.clock)
    && (step.Fail? ==> Clear(s, step.i))
  }

  ghost predicate IsOrderly(ss: seq<State>, steps: seq<Step>) {
    IsPath(ss, steps) && forall k :: 0 <= k < |steps| ==> Orderly(ss[k], steps[k])
  }

  ghost predicate Read(s: State) {
    forall i :: 0 <= i < |s.claims| ==> s.claims[i].at <= s.clock
  }

  ghost predicate Good(s: State) {
    Spaced(s) && Shielded(s) && Read(s)
  }

  lemma ClaimGood(s: State, key: Key, now: int, cooldown: int)
    requires Good(s) && now >= s.clock
    ensures Good(Next(s, TryClaim(key, now, cooldown)))
  {
    if !Suppresses(s.slots, key, now) {
      var r := Next(s, TryClaim(key, now, cooldown));
      var slots := s.slots[key := now + cooldown];
      forall i | 0 <= i < |s.claims| && !s.claims[i].status.Failed? && s.claims[i].key == key
        ensures s.claims[i].until <= now
      {
      }
      assert forall k :: k in slots && slots[k] > now ==> k in r.slots && r.slots[k] == slots[k];
    }
  }

  /** A delivery that fails before its own cooldown ends gives back a clear slot. */
  lemma PromptIsClear(s: State, i: nat)
    requires Good(s) && i < |s.claims| && !s.claims[i].status.Failed? && s.clock < s.claims[i].until
    ensures Clear(s, i)
  {
    forall j | 0 <= j < |s.claims| && j != i && s.claims[j].key == s.claims[i].key && !s.claims[j].status.Failed?
      ensures s.claims[j].until <= s.clock
    {
      assert j < i ==> s.claims[i].at >= s.claims[j].until;
    }
  }

  lemma FailGood(s: State, i: nat)
    requires Good(s) && Enabled(s, Fail(i)) && Clear(s, i)
    ensures Good(Next(s, Fail(i)))
  {
    var r := Next(s, Fail(i));
    assert forall j :: 0 <= j < |s.claims| && j != i ==> r.claims[j] == s.claims[j];
  }

  lemma {:induction false} OrderlyPathsGood(ss: seq<State>, steps: seq<Step>, i: nat)
    requires IsOrderly(ss, steps) && Good(ss[0]) && i < |ss|
    ensures Good(ss[i])
  {
    if i > 0 {
      OrderlyPathsGood(ss, steps, i - 1);
      assert Enabled(ss[i - 1], steps[i - 1]) && ss[i - 1 + 1] == Next(ss[i - 1], steps[i - 1]);
      assert Orderly(ss[i - 1], steps[i - 1]);
      match steps[i - 1]
      case TryClaim(key, now, cooldown) => ClaimGood(ss[i - 1], key, now, cooldown);
      case Deliver(k) =>
      case Fail(k) => FailGood(ss[i - 1], k);
    }
  }

  /** Deliveries of the same (rule, subject) that went out were claimed at least the earlier one's cooldown apart. */
  ghost predicate Apart(s: State) {
    forall i, j :: 0 <= i < j < |s.claims| && s.claims[i].key == s.claims[j].key
                   && s.claims[i].status.Delivered? && s.claims[j].status.Delivered? ==>
      s.claims[j].at >= s.claims[i].until
  }

  /** Main: in an orderly run deliveries stay apart, whatever the interleaving of the workers. */
  lemma DeliveriesSpaced(ss: seq<State>, steps: seq<Step>, n: nat)
    requires IsRun(ss, steps) && IsOrderly(ss, steps) && n < |ss|
    ensures Apart(ss[n])
  {
    OrderlyPathsGood(ss, steps, n);
  }

  /** Every slot is that of some claim not given back. */
  ghost predicate Backed(s: State) {
    forall k :: k in s.slots ==>
      exists i :: 0 <= i < |s.claims| && s.claims[i].key == k && s.claims[i].until == s.slots[k] && !s.claims[i].status.Failed?
  }

  lemma NextBacked(s: State, step: Step)
    requires Backed(s) && Enabled(s, step)
    ensures Backed(Next(s, step))
  {
    var r := Next(s, step);
    forall k | k in r.slots
      ensures exists i :: 0 <= i < |r.claims| && r.claims[i].key == k && r.claims[i].until == r.slots[k] && !r.claims[i].status.Failed?
    {
      if step.TryClaim? && step.key == k && r.claims != s.claims {
        assert r.claims[|s.claims|].key == k;
      } else {
        var i :| 0 <= i < |s.claims| && s.claims[i].key == k && s.claims[i].until == s.slots[k] && !s.claims[i].status.Failed?;
        assert r.claims[i].key == k;
      }
    }
  }

  lemma {:induction false} PathsBacked(ss: seq<State>, steps: seq<Step>, i: nat)
    requires IsPath(ss, steps) && Backed(ss[0]) && i < |ss|
    ensures Backed(ss[i])
  {
    hide Backed, Next, Enabled;
    if i > 0 {
      PathsBacked(ss, steps, i - 1);
      NextBacked(ss[i - 1], steps[i - 1]);
    }
  }

  /** Main: in an orderly run a claim is let through, to end its cooldown after the reading, exactly when no claim of its key
      that was not given back ends after the reading. */
  lemma LetThroughExactly(ss: seq<State>, steps: seq<Step>, n: nat)
    requires IsRun(ss, steps) && IsOrderly(ss, steps) && n < |steps| && steps[n].TryClaim?
    ensures var s, r, key, now := ss[n], ss[n + 1], steps[n].key, steps[n].now;
      && (r.claims == s.claims + [Claim(key, now, now + steps[n].cooldown, Pending)] <==>
            forall i :: 0 <= i < |s.claims| && s.claims[i].key == key && !s.claims[i].status.Failed? ==> s.claims[i].until <= now)
      && (r.claims == s.claims || |r.claims| == |s.claims| + 1)
  {
    OrderlyPathsGood(ss, steps, n);
    PathsBacked(ss, steps, n);
    assert Orderly(ss[n], steps[n]) && ss[n + 1] == Next(ss[n], steps[n]);
    hide IsPath, Spaced, Claimed;
    var s, key, now := ss[n], steps[n].key, steps[n].now;
    if Suppresses(s.slots, key, now) {
      var i :| 0 <= i < |s.claims| && s.claims[i].key == key && s.claims[i].until == s.slots[key] && !s.claims[i].status.Failed?;
      assert s.claims[i].until > now;
      assert |ss[n + 1].claims| == |s.claims|;
    }
  }

  /** However the workers go on from here, as long as they are orderly, deliveries stay apart. */
  ghost predicate SafeFrom(s: State) {
    forall ss, steps :: IsOrderly(ss, steps) && ss[0] == s ==> Apart(ss[|ss| - 1])
  }

  lemma Extended(ss: seq<State>, steps: seq<Step>, step: Step)
    requires IsOrderly(ss, steps) && Enabled(ss[|ss| - 1], step) && Orderly(ss[|ss| - 1], step)
    ensures IsOrderly(ss + [Next(ss[|ss| - 1], step)], steps + [step])
  {
    hide Next, Enabled, Orderly;
  }

  /** A claim and two deliveries after a release that was not clear: one for the claim still running, one for the new. */
  lemma UnclearTears(s: State, i: nat, j: nat) returns (ss: seq<State>, steps: seq<Step>)
    requires Enabled(s, Fail(i)) && j < |s.claims| && j != i && s.claims[j].key == s.claims[i].key
    requires !s.claims[j].status.Failed? && s.claims[j].until > s.clock
    ensures IsOrderly(ss, steps) && ss[0] == Next(s, Fail(i)) && !Apart(ss[|ss| - 1])
  {
    var key, n := s.claims[i].key, |s.claims|;
    var s1 := Next(s, Fail(i));
    ss, steps := [s1], [];
    hide IsOrderly, Claimed;
    assert IsOrderly(ss, steps) by { Alone(s1); }
    Extended(ss, steps, TryClaim(key, s.clock, 0));
    var s2 := Next(s1, TryClaim(key, s.clock, 0));
    ss, steps := ss + [s2], steps + [TryClaim(key, s.clock, 0)];
    assert s2.claims[n] == Claim(key, s.clock, s.clock, Pending) && s2.claims[j] == s.claims[j];
    Extended(ss, steps, Deliver(n));
    var s3 := Next(s2, Deliver(n));
    ss, steps := ss + [s3], steps + [Deliver(n)];
    if s.claims[j].status.Pending? {
      Extended(ss, steps, Deliver(j));
      var s4 := Next(s3, Deliver(j));
      ss, steps := ss + [s4], steps + [Deliver(j)];
    }
    var last := ss[|ss| - 1];
    assert last.claims[j].status.Delivered? && last.claims[n].status.Delivered?;
    assert last.claims[n].at < last.claims[j].until && j < n;
  }

  lemma Alone(s: State)
    ensures IsOrderly([s], [])
  {}

  /** Main: a release is safe, whatever the workers do next, exactly when no other claim of its key is still running. */
  lemma ReleaseExact(s: State, i: nat)
    requires Good(s) && Enabled(s, Fail(i))
    ensures SafeFrom(Next(s, Fail(i))) <==> Clear(s, i)
  {
    if Clear(s, i) {
      FailGood(s, i);
      forall ss, steps | IsOrderly(ss, steps) && ss[0] == Next(s, Fail(i))
        ensures Apart(ss[|ss| - 1])
      {
        OrderlyPathsGood(ss, steps, |ss| - 1);
      }
    } else {
      var j :| 0 <= j < |s.claims| && j != i && s.claims[j].key == s.claims[i].key && !s.claims[j].status.Failed?
               && s.claims[j].until > s.clock;
      var ss, steps := UnclearTears(s, i, j);
    }
  }

  /** A claim let through a map too small to sweep. */
  lemma ClaimedSmall(slots: Slots, key: Key, now: int, cooldown: int)
    requires |slots| < SWEEP_ABOVE
    ensures Claimed(slots, key, now, cooldown) == slots[key := now + cooldown]
  {}

  const KEY := "r\0drone"

  ghost predicate Leads(s: State, step: Step, r: State) {
    Enabled(s, step) && r == Next(s, step)
  }

  lemma ClaimLeads(s: State, now: int, cooldown: int, r: State)
    requires |s.slots| < SWEEP_ABOVE && !Suppresses(s.slots, KEY, now)
    requires r.slots == s.slots[KEY := now + cooldown]
    requires r.claims == s.claims + [Claim(KEY, now, now + cooldown, Pending)]
    requires r.clock == if now > s.clock then now else s.clock
    ensures Leads(s, TryClaim(KEY, now, cooldown), r)
  {
    ClaimedSmall(s.slots, KEY, now, cooldown);
    hide Claimed;
  }

  lemma DeliverLeads(s: State, i: nat, r: State)
    requires i < |s.claims| && s.claims[i].status.Pending?
    requires r.claims == s.claims[i := s.claims[i].(status := Delivered)] && r.slots == s.slots && r.clock == s.clock
    ensures Leads(s, Deliver(i), r)
  {}

  lemma FailLeads(s: State, i: nat, r: State)
    requires i < |s.claims| && s.claims[i].status.Pending?
    requires r.claims == s.claims[i := s.claims[i].(status := Failed)]
    requires r.slots == s.slots - {s.claims[i].key} && r.clock == s.clock
    ensures Leads(s, Fail(i), r)
  {}

  lemma SixSteps(ss: seq<State>, steps: seq<Step>)
    requires |ss| == 7 && |steps| == 6 && ss[0].slots == map[] && ss[0].claims == []
    requires Leads(ss[0], steps[0], ss[1]) && Leads(ss[1], steps[1], ss[2]) && Leads(ss[2], steps[2], ss[3])
    requires Leads(ss[3], steps[3], ss[4]) && Leads(ss[4], steps[4], ss[5]) && Leads(ss[5], steps[5], ss[6])
    ensures IsRun(ss, steps)
  {
    hide Enabled, Next;
  }

  /** A run in which the code alerts twice within a cooldown because a clock reading is stale: every release is clear, but a
      worker that read the clock before a release takes the lock after it. */
  lemma StaleReadingAlertsTwice() returns (ss: seq<State>, steps: seq<Step>)
    ensures IsRun(ss, steps)
    ensures forall k :: 0 <= k < |steps| && steps[k].Fail? ==> Enabled(ss[k], steps[k]) && Clear(ss[k], steps[k].i)
    ensures var s := ss[|ss| - 1];
      && |s.claims| == 3
      && s.claims[0] == Claim("r\0drone", 100, 160, Delivered)
      && s.claims[2] == Claim("r\0drone", 120, 180, Delivered)
  {
    hide Leads, IsRun, Next;
    var a, b, c := Claim(KEY, 100, 160, Delivered), Claim(KEY, 170, 230, Pending), Claim(KEY, 120, 180, Pending);
    var s0 := State(map[], [], 0);
    var s1 := State(map[KEY := 160], [a.(status := Pending)], 100);
    var s2 := State(map[KEY := 160], [a], 100);
    var s3 := State(map[KEY := 230], [a, b], 170);
    var s4 := State(map[], [a, b.(status := Failed)], 170);
    var s5 := State(map[KEY := 180], [a, b.(status := Failed), c], 170);
    var s6 := State(map[KEY := 180], [a, b.(status := Failed), c.(status := Delivered)], 170);
    ss := [s0, s1, s2, s3, s4, s5, s6];
    steps := [TryClaim(KEY, 100, 60), Deliver(0), TryClaim(KEY, 170, 60), Fail(1), TryClaim(KEY, 120, 60), Deliver(2)];
    ClaimLeads(s0, 100, 60, s1);
    DeliverLeads(s1, 0, s2);
    ClaimLeads(s2, 170, 60, s3);
    FailLeads(s3, 1, s4);
    ClaimLeads(s4, 120, 60, s5);
    DeliverLeads(s5, 2, s6);
    SixSteps(ss, steps);
  }

  /** A run in which the code alerts twice within a cooldown: a delivery fails after its own cooldown has ended, and gives
      back the slot of the alert that had since gone out. */
  lemma LateReleaseAlertsTwice() returns (ss: seq<State>, steps: seq<Step>)
    ensures IsRun(ss, steps)
    ensures forall k :: 0 <= k < |steps| && steps[k].TryClaim? ==> steps[k].now >= ss[k].clock
    ensures var s := ss[|ss| - 1];
      && |s.claims| == 3
      && s.claims[1] == Claim("r\0drone", 70, 130, Delivered)
      && s.claims[2] == Claim("r\0drone", 75, 135, Delivered)
  {
    hide Leads, IsRun, Next;
    var a, b, c := Claim(KEY, 0, 60, Pending), Claim(KEY, 70, 130, Delivered), Claim(KEY, 75, 135, Pending);
    var s0 := State(map[], [], 0);
    var s1 := State(map[KEY := 60], [a], 0);
    var s2 := State(map[KEY := 130], [a, b.(status := Pending)], 70);
    var s3 := State(map[KEY := 130], [a, b], 70);
    var s4 := State(map[], [a.(status := Failed), b], 70);
    var s5 := State(map[KEY := 135], [a.(status := Failed), b, c], 75);
    var s6 := State(map[KEY := 135], [a.(status := Failed), b, c.(status := Delivered)], 75);
    ss := [s0, s1, s2, s3, s4, s5, s6];
    steps := [TryClaim(KEY, 0, 60), TryClaim(KEY, 70, 60), Deliver(1), Fail(0), TryClaim(KEY, 75, 60), Deliver(2)];
    ClaimLeads(s0, 0, 60, s1);
    ClaimLeads(s1, 70, 60, s2);
    DeliverLeads(s2, 1, s3);
    FailLeads(s3, 0, s4);
    ClaimLeads(s4, 75, 60, s5);
    DeliverLeads(s5, 2, s6);
    SixSteps(ss, steps);
  }

  // ---- The queue in front ----

  /** `dropping` events found the queue full and are about to be counted. */
  datatype Queue<T> = Queue(fired: nat, waiting: seq<T>, handled: seq<T>, accepted: seq<T>, dropped: nat, dropping: nat)

  datatype QueueStep<T> = Fire(e: T) | CountDrop | Handle

  predicate CanStep<T>(q: Queue<T>, step: QueueStep<T>) {
    match step
    case Fire(_) => true
    case CountDrop => q.dropping > 0
    case Handle => q.waiting != []
  }

  function QueueNext<T>(q: Queue<T>, step: QueueStep<T>): Queue<T>
    requires CanStep(q, step)
  {
    match step
    case Fire(e) =>
      if |q.waiting| < QUEUE_DEPTH
      then q.(fired := q.fired + 1, waiting := q.waiting + [e], accepted := q.accepted + [e])
      else q.(fired := q.fired + 1, dropping := q.dropping + 1)
    case CountDrop => q.(dropping := q.dropping - 1, dropped := q.dropped + 1)
    case Handle => q.(waiting := q.waiting[1..], handled := q.handled + [q.waiting[0]])
  }

  /** Every fired event is dropped and counted, waiting, or handled; what was accepted is handled in order, once. */
  ghost predicate Accounted<T>(q: Queue<T>) {
    && q.fired == q.dropped + q.dropping + |q.accepted|
    && q.accepted == q.handled + q.waiting
    && |q.waiting| <= QUEUE_DEPTH
  }

  /** An event is taken exactly when fewer than 512 wait, and is then the last of them; the one handled next is the first. */
  lemma FireExactly<T>(q: Queue<T>, e: T)
    ensures var r := QueueNext(q, Fire(e));
      if |q.waiting| < 512 then r.waiting == q.waiting + [e] && r.dropping == q.dropping
      else r.waiting == q.waiting && r.dropping == q.dropping + 1
    ensures q.waiting != [] ==> QueueNext(q, Handle).handled == q.handled + [q.waiting[0]]
  {}

  lemma {:induction false} QueueAccounted<T>(qs: seq<Queue<T>>, steps: seq<QueueStep<T>>, i: nat)
    requires |qs| == |steps| + 1 && i < |qs| && qs[0] == Queue(0, [], [], [], 0, 0)
    requires forall k :: 0 <= k < |steps| ==> CanStep(qs[k], steps[k]) && qs[k + 1] == QueueNext(qs[k], steps[k])
    ensures Accounted(qs[i])
  {
    if i > 0 {
      QueueAccounted(qs, steps, i - 1);
      assert CanStep(qs[i - 1], steps[i - 1]) && qs[i - 1 + 1] == QueueNext(qs[i - 1], steps[i - 1]);
    }
  }

  // ---- The map as the dispatcher edits it ----

  class Dispatcher {
    var cooldown: Slots

    /** Answers whether the rule already fired for the subject recently, and claims the slot if not. */
    method Suppressed(key: Key, now: int, cooldownS: int) returns (b: bool)
      modifies this
      ensures b == Suppresses(old(cooldown), key, now)
      ensures cooldown == if b then old(cooldown) else Claimed(old(cooldown), key, now, cooldownS)
    {
      if key in cooldown && now < cooldown[key] {
        return true;
      }
      cooldown := cooldown[key := now + cooldownS];
      if |cooldown| > SWEEP_ABOVE {
        ghost var before := cooldown;
        var pending := cooldown.Keys;
        while pending != {}
          invariant pending <= cooldown.Keys
          invariant forall k :: k in cooldown ==> k in before && cooldown[k] == before[k]
          invariant forall k :: k in before && k !in cooldown ==> now > before[k]
          invariant forall k :: k in cooldown && k !in pending ==> !(now > cooldown[k])
          decreases |pending|
        {
          var k :| k in pending;
          pending := pending - {k};
          if now > cooldown[k] {
            cooldown := cooldown - {k};
          }
        }
        assert cooldown == Swept(before, now);
      }
      return false;
    }

    method Release(key: Key)
      modifies this
      ensures cooldown == old(cooldown) - {key}
    {
      cooldown := cooldown - {key};
    }
  }
}
