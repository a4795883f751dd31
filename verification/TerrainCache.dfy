/**
 Ground elevation for fusion: lookups answer from a bounded cache and never wait; a miss schedules
 one fetch, through a bounded queue, to a service that runs one fetch at a time. Lookups and
 schedulers run concurrently with the service; each step below is what happens under one lock.
 */
module TerrainCache {
  import opened Options

  datatype Cell = Cell(lat: int, lon: int)

  const QUEUE_SIZE := 256

  datatype Reading = Reading(cell: Cell, elevation: real)

  /** `scheduling` cells are marked and about to be queued; `dropping` ones found the queue full and are about to be
      unmarked; `inserted` lists what ever entered the cache, `fetched` what the service ever returned. */
  datatype Terrain = Terrain(
    cache: map<Cell, real>,
    order: seq<Cell>,
    pending: set<Cell>,
    scheduling: multiset<Cell>,
    dropping: multiset<Cell>,
    queue: seq<Cell>,
    fetching: Option<Cell>,
    inserted: seq<Reading>,
    fetched: set<Reading>)

  const START := Terrain(map[], [], {}, multiset{}, multiset{}, [], None, [], {})

  /** A cached elevation, corrected by the geoid offset; None is a miss. */
  function Lookup(cache: map<Cell, real>, c: Cell, geoidOffset: real): Option<real> {
    if c in cache then Some(cache[c] + geoidOffset) else None
  }

  /** Drops the oldest insertions until the cache fits. */
  function Evicted(cache: map<Cell, real>, order: seq<Cell>, size: nat): (map<Cell, real>, seq<Cell>) {
    if |order| > size then Evicted(cache - {order[0]}, order[1..], size) else (cache, order)
  }

  /** The cache and its order after a fetch succeeds. A cell already cached keeps its value. */
  function Stored(cache: map<Cell, real>, order: seq<Cell>, c: Cell, elevation: real, size: nat): (map<Cell, real>, seq<Cell>) {
    if c in cache then (cache, order) else Evicted(cache[c := elevation], order + [c], size)
  }

  datatype Step =
    | Mark(c: Cell)
    | Enqueue(c: Cell)
    | Unmark(c: Cell)
    | Take
    | Store(elevation: real)
    | Fail

  predicate Enabled(t: Terrain, step: Step) {
    match step
    case Mark(_) => true
    case Enqueue(c) => c in t.scheduling
    case Unmark(c) => c in t.dropping
    case Take => t.fetching.None? && t.queue != []
    case Store(_) => t.fetching.Some?
    case Fail => t.fetching.Some?
  }

  function Next(t: Terrain, step: Step, size: nat): Terrain
    requires Enabled(t, step)
  {
    match step
    case Mark(c) =>
      if c in t.pending then t else t.(pending := t.pending + {c}, scheduling := t.scheduling + multiset{c})
    case Enqueue(c) =>
      if |t.queue| < QUEUE_SIZE then t.(scheduling := t.scheduling - multiset{c}, queue := t.queue + [c])
      else t.(scheduling := t.scheduling - multiset{c}, dropping := t.dropping + multiset{c})
    case Unmark(c) => t.(dropping := t.dropping - multiset{c}, pending := t.pending - {c})
    case Take => t.(queue := t.queue[1..], fetching := Some(t.queue[0]))
    case Store(elevation) =>
      var c := t.fetching.value;
      var (cache, order) := Stored(t.cache, t.order, c, elevation, size);
      var reading := Reading(c, elevation);
      t.(cache := cache, order := order, pending := t.pending - {c}, fetching := None,
         inserted := if c in t.cache then t.inserted else t.inserted + [reading],
         fetched := t.fetched + {reading})
    case Fail => t.(pending := t.pending - {t.fetching.value}, fetching := None)
  }

  // ---- One outstanding request per cell ----

  /** Everywhere a request for the cell can be. */
  ghost function InFlight(t: Terrain, c: Cell): nat {
    t.scheduling[c] + t.dropping[c] + multiset(t.queue)[c] + if t.fetching == Some(c) then 1 else 0
  }

  ghost predicate OneEach(t: Terrain) {
    && (forall c :: InFlight(t, c) == if c in t.pending then 1 else 0)
    && |t.queue| <= QUEUE_SIZE
  }

  lemma QueueSplit(queue: seq<Cell>)
    requires queue != []
    ensures multiset(queue) == multiset(queue[1..]) + multiset{queue[0]}
  {
    assert queue == [queue[0]] + queue[1..];
  }

  lemma NextOneEach(t: Terrain, step: Step, size: nat)
    requires OneEach(t) && Enabled(t, step)
    ensures OneEach(Next(t, step, size))
  {
    hide Stored;
    var r := Next(t, step, size);
    if step.Take? {
      QueueSplit(t.queue);
    }
    forall c
      ensures InFlight(r, c) == if c in r.pending then 1 else 0
    {
      assert InFlight(t, c) == if c in t.pending then 1 else 0;
      if step.Enqueue? || step.Unmark? {
        assert InFlight(t, step.c) == if step.c in t.pending then 1 else 0;
      }
      if step.Store? || step.Fail? {
        assert InFlight(t, t.fetching.value) == if t.fetching.value in t.pending then 1 else 0;
      }
    }
  }

  // ---- The cache ----

  function Newest<T>(s: seq<T>, n: nat): seq<T> {
    if |s| > n then s[|s| - n..] else s
  }

  function CellsOf(readings: seq<Reading>): seq<Cell> {
    seq(|readings|, i requires 0 <= i < |readings| => readings[i].cell)
  }

  ghost predicate Unique(cells: seq<Cell>) {
    forall i, j :: 0 <= i < j < |cells| ==> cells[i] != cells[j]
  }

  /** The cache holds exactly these readings, in this order, one per cell. */
  ghost predicate Holds(cache: map<Cell, real>, order: seq<Cell>, rs: seq<Reading>) {
    && order == CellsOf(rs)
    && Unique(order)
    && (forall c :: c in cache <==> c in order)
    && (forall i :: 0 <= i < |rs| ==> rs[i].cell in cache && cache[rs[i].cell] == rs[i].elevation)
  }

  /** The cache is the newest insertions, each with the value it was inserted with. */
  ghost predicate CacheIsNewest(t: Terrain, size: nat) {
    && Holds(t.cache, t.order, Newest(t.inserted, size))
    && (forall r :: r in t.inserted ==> r in t.fetched)
  }

  lemma HoldsInsert(cache: map<Cell, real>, order: seq<Cell>, rs: seq<Reading>, r: Reading)
    requires Holds(cache, order, rs) && r.cell !in cache
    ensures Holds(cache[r.cell := r.elevation], order + [r.cell], rs + [r])
  {
    assert forall i :: 0 <= i < |rs| ==> rs[i].cell == order[i] && rs[i].cell in order;
    assert CellsOf(rs + [r]) == CellsOf(rs) + [r.cell];
  }

  lemma HoldsDrop(cache: map<Cell, real>, order: seq<Cell>, rs: seq<Reading>)
    requires Holds(cache, order, rs) && rs != []
    ensures Holds(cache - {order[0]}, order[1..], rs[1..])
  {
    var tail := order[1..];
    assert tail == CellsOf(rs[1..]);
    forall c
      ensures c in cache - {order[0]} <==> c in tail
    {
      if c in order && c != order[0] {
        var i :| 0 <= i < |order| && order[i] == c;
        assert tail[i - 1] == c;
      }
    }
    forall i | 0 <= i < |rs[1..]|
      ensures rs[1..][i].cell in cache - {order[0]} && (cache - {order[0]})[rs[1..][i].cell] == rs[1..][i].elevation
    {
      assert rs[1..][i] == rs[i + 1] && order[i + 1] == rs[i + 1].cell;
    }
  }

  lemma HoldsLength(cache: map<Cell, real>, order: seq<Cell>, rs: seq<Reading>)
    requires Holds(cache, order, rs)
    ensures |order| == |rs|
  {}

  lemma EvictOne(cache: map<Cell, real>, order: seq<Cell>, size: nat)
    requires |order| <= size + 1
    ensures Evicted(cache, order, size) == if |order| > size then (cache - {order[0]}, order[1..]) else (cache, order)
  {}

  lemma NewestStep<T>(s: seq<T>, x: T, n: nat)
    ensures var before := Newest(s, n) + [x];
            Newest(s + [x], n) == if |before| > n then before[1..] else before
  {
    if |s| > n {
      assert (s + [x])[|s| + 1 - n..] == (s[|s| - n..] + [x])[1..];
    } else if |s| == n {
      assert (s + [x])[1..] == (Newest(s, n) + [x])[1..];
    }
  }

  lemma StoreNewest(t: Terrain, elevation: real, size: nat)
    requires CacheIsNewest(t, size) && size > 0 && t.fetching.Some?
    ensures CacheIsNewest(Next(t, Store(elevation), size), size)
  {
    hide Holds, Evicted, Newest;
    var c := t.fetching.value;
    var r := Reading(c, elevation);
    if c !in t.cache {
      var newest := Newest(t.inserted, size);
      var cache, order := t.cache[c := elevation], t.order + [c];
      NewestFits(t.inserted, size);
      HoldsLength(t.cache, t.order, newest);
      HoldsInsert(t.cache, t.order, newest, r);
      HoldsDrop(cache, order, newest + [r]);
      EvictOne(cache, order, size);
      NewestStep(t.inserted, r, size);
    }
  }

  lemma NewestFits<T>(s: seq<T>, n: nat)
    ensures |Newest(s, n)| <= n
  {}

  ghost predicate Good(t: Terrain, size: nat) {
    OneEach(t) && CacheIsNewest(t, size)
  }

  lemma NextGood(t: Terrain, step: Step, size: nat)
    requires Good(t, size) && size > 0 && Enabled(t, step)
    ensures Good(Next(t, step, size), size)
  {
    hide OneEach, Holds, Stored;
    NextOneEach(t, step, size);
    if step.Store? {
      StoreNewest(t, step.elevation, size);
    }
  }

  ghost predicate IsRun(ts: seq<Terrain>, steps: seq<Step>, size: nat) {
    && |ts| == |steps| + 1
    && ts[0] == START
    && forall i :: 0 <= i < |steps| ==> Enabled(ts[i], steps[i]) && ts[i + 1] == Next(ts[i], steps[i], size)
  }

  /** Main: under any interleaving a cell is pending exactly when one request for it is under way, and the cache holds the
      newest insertions in order. */
  lemma {:induction false} RunsStayGood(ts: seq<Terrain>, steps: seq<Step>, size: nat, i: nat)
    requires IsRun(ts, steps, size) && size > 0 && i < |ts|
    ensures Good(ts[i], size)
  {
    if i > 0 {
      hide Good, Next, Enabled;
      RunsStayGood(ts, steps, size, i - 1);
      NextGood(ts[i - 1], steps[i - 1], size);
    }
  }

  /** Main: every hit is a value the service fetched for that very cell, plus the offset; and at most `size` cells are cached. */
  lemma HitsWereFetched(ts: seq<Terrain>, steps: seq<Step>, size: nat, i: nat, c: Cell, offset: real)
    requires IsRun(ts, steps, size) && size > 0 && i < |ts|
    ensures var t := ts[i];
      && (Lookup(t.cache, c, offset).Some? ==>
            exists r :: r in t.fetched && r.cell == c && Lookup(t.cache, c, offset).value == r.elevation + offset)
      && t.cache.Keys == (set x | x in t.order) && |t.cache| <= size
  {
    RunsStayGood(ts, steps, size, i);
    hide OneEach, IsRun;
    var t := ts[i];
    var newest := Newest(t.inserted, size);
    if c in t.cache {
      var k :| 0 <= k < |newest| && newest[k].cell == c;
      assert newest[k] in t.inserted;
    }
    assert t.cache.Keys == (set x | x in t.order);
    SetNoLarger(t.order);
  }

  lemma NewestAt<T>(s: seq<T>, n: nat, k: nat)
    requires k < |s|
    ensures |s| - n <= k ==> |Newest(s, n)| > k - (|s| - |Newest(s, n)|) >= 0
    ensures |s| - n <= k ==> s[k] == Newest(s, n)[k - (|s| - |Newest(s, n)|)]
  {}

  lemma NewestFrom<T>(s: seq<T>, n: nat, j: nat)
    requires j < |Newest(s, n)|
    ensures var k := |s| - |Newest(s, n)| + j; 0 <= k < |s| && |s| - n <= k && s[k] == Newest(s, n)[j]
  {}

  lemma HeldExactly(cache: map<Cell, real>, order: seq<Cell>, rs: seq<Reading>, c: Cell)
    requires Holds(cache, order, rs)
    ensures c in cache <==> exists j :: 0 <= j < |rs| && rs[j].cell == c
    ensures forall j :: 0 <= j < |rs| && rs[j].cell == c ==> c in cache && cache[c] == rs[j].elevation
  {
    if c in cache {
      var j :| 0 <= j < |order| && order[j] == c;
      assert rs[j].cell == c;
    }
  }

  /** Main: a lookup hits exactly when the cell is among the `size` newest insertions, and answers the elevation it was inserted
      with, plus the offset. */
  lemma HitsExactly(ts: seq<Terrain>, steps: seq<Step>, size: nat, i: nat, c: Cell, offset: real, v: real)
    requires IsRun(ts, steps, size) && size > 0 && i < |ts|
    ensures var all := ts[i].inserted;
      Lookup(ts[i].cache, c, offset) == Some(v) <==>
        exists k :: 0 <= k < |all| && |all| - size <= k && all[k].cell == c && v == all[k].elevation + offset
  {
    hide OneEach, IsRun, Holds, Newest;
    RunsStayGood(ts, steps, size, i);
    var t := ts[i];
    var all, newest := t.inserted, Newest(t.inserted, size);
    HeldExactly(t.cache, t.order, newest, c);
    if c in t.cache {
      var j :| 0 <= j < |newest| && newest[j].cell == c;
      NewestFrom(all, size, j);
      assert all[|all| - |newest| + j].cell == c;
    }
    if k :| 0 <= k < |all| && |all| - size <= k && all[k].cell == c && v == all[k].elevation + offset {
      NewestAt(all, size, k);
      assert newest[k - (|all| - |newest|)].cell == c;
    }
  }

  /** A fetch that succeeds leaves its cell cached, with the value fetched unless there was one already. */
  lemma StoreExactly(t: Terrain, elevation: real, size: nat)
    requires Good(t, size) && size > 0 && t.fetching.Some?
    ensures var r, c := Next(t, Store(elevation), size), t.fetching.value;
      && r.inserted == (if c in t.cache then t.inserted else t.inserted + [Reading(c, elevation)])
      && c in r.cache && r.cache[c] == (if c in t.cache then t.cache[c] else elevation)
      && c !in r.pending && r.fetching.None?
  {
    StoreNewest(t, elevation, size);
    hide OneEach, Evicted;
    var r, c := Next(t, Store(elevation), size), t.fetching.value;
    if c !in t.cache {
      var newest := Newest(r.inserted, size);
      assert newest[|newest| - 1] == Reading(c, elevation);
    }
  }

  /** A miss leaves one request under way for its cell, and changes nothing for the others. */
  lemma MissScheduled(t: Terrain, c: Cell, size: nat)
    requires OneEach(t)
    ensures var r := Next(t, Mark(c), size);
      InFlight(r, c) == 1 && c in r.pending && forall x :: x != c ==> InFlight(r, x) == InFlight(t, x)
  {
    NextOneEach(t, Mark(c), size);
    assert InFlight(t, c) == if c in t.pending then 1 else 0;
  }

  /** The cells whose request found fewer than 256 waiting, in the order they were queued. */
  function Accepted(ts: seq<Terrain>, steps: seq<Step>, i: nat): seq<Cell>
    requires i < |ts| && i <= |steps|
  {
    if i == 0 then []
    else
      Accepted(ts, steps, i - 1)
      + if steps[i - 1].Enqueue? && |ts[i - 1].queue| < 256 then [steps[i - 1].c] else []
  }

  /** The cells the service took up, in order. */
  function Taken(ts: seq<Terrain>, steps: seq<Step>, i: nat): seq<Cell>
    requires i < |ts| && i <= |steps|
  {
    if i == 0 then []
    else
      Taken(ts, steps, i - 1) + if steps[i - 1].Take? && ts[i].fetching.Some? then [ts[i].fetching.value] else []
  }

  /** What one step does to the queue. */
  lemma QueueStep(t: Terrain, step: Step, size: nat)
    requires Enabled(t, step)
    ensures var r := Next(t, step, size);
      if step.Enqueue? && |t.queue| < 256 then r.queue == t.queue + [step.c]
      else if step.Take? then r.fetching.Some? && t.queue == [r.fetching.value] + r.queue
      else r.queue == t.queue
  {
    hide Stored;
  }

  lemma Rearranged(a: seq<Cell>, x: seq<Cell>, b: seq<Cell>)
    ensures a + (x + b) == a + x + b
  {}

  /** Main: over any run, the cells the service has taken up and those that wait are the ones queued while fewer than 256
      waited, in that order; none is lost and none repeated. */
  lemma {:induction false} RequestsExactly(ts: seq<Terrain>, steps: seq<Step>, size: nat, i: nat)
    requires IsRun(ts, steps, size) && i < |ts|
    ensures Taken(ts, steps, i) + ts[i].queue == Accepted(ts, steps, i)
  {
    hide Next, Enabled;
    if i > 0 {
      RequestsExactly(ts, steps, size, i - 1);
      var t, r, step := ts[i - 1], ts[i], steps[i - 1];
      assert Enabled(t, step) && r == Next(t, step, size);
      hide IsRun;
      QueueStep(t, step, size);
      var before := Taken(ts, steps, i - 1);
      if step.Take? {
        Rearranged(before, [r.fetching.value], r.queue);
      } else if step.Enqueue? && |t.queue| < 256 {
        Rearranged(before, t.queue, [step.c]);
      } else {
        assert Taken(ts, steps, i) == before + [] == before;
      }
    } else {
      assert ts[0] == START;
    }
  }

  lemma {:induction false} SetNoLarger(cells: seq<Cell>)
    ensures |set x | x in cells| <= |cells|
  {
    if cells == [] {
      assert (set x | x in cells) == {};
    } else {
      SetNoLarger(cells[1..]);
      assert cells == [cells[0]] + cells[1..];
      assert (set x | x in cells) == (set x | x in cells[1..]) + {cells[0]};
    }
  }

  // ---- The locked sections themselves ----

  class Resolver {
    const size: nat
    var cache: map<Cell, real>
    var order: seq<Cell>
    var pending: set<Cell>

    /** Marks a missed cell; false when a request for it is already under way. */
    method MarkMissed(c: Cell) returns (fresh_: bool)
      modifies this`pending
      ensures fresh_ == (c !in old(pending)) && pending == old(pending) + {c}
    {
      if c in pending {
        assert pending == pending + {c};
        return false;
      }
      pending := pending + {c};
      return true;
    }

    method StoreFetched(c: Cell, elevation: real)
      modifies this
      ensures pending == old(pending) - {c}
      ensures (cache, order) == Stored(old(cache), old(order), c, elevation, size)
    {
      pending := pending - {c};
      if c !in cache {
        cache := cache[c := elevation];
        order := order + [c];
        while |order| > size
          invariant Evicted(cache, order, size) == Evicted(old(cache)[c := elevation], old(order) + [c], size)
          invariant pending == old(pending) - {c}
        {
          cache := cache - {order[0]};
          order := order[1..];
        }
      }
    }
  }
}
