/**
 The GraphQL cost check: walkers that expand fragment spreads as they go, sharing one set of the
 fragments on the current path, run before the document has been validated.
 */
module QueryCost {
  import opened Options

  datatype Value = IntLiteral(n: int) | Variable(name: Option<string>) | OtherValue

  datatype Argument = Argument(name: Option<string>, value: Value)

  datatype Selection =
    | Field(name: Option<string>, arguments: seq<Argument>, sub: SelectionSet)
    | Inline(inner: SelectionSet)
    | Spread(name: Option<string>)

  /** A braced set of selections, or none. */
  datatype SelectionSet = NoSet | Set(value: seq<Selection>)

  type Selections = seq<Selection>
  type Fragments = map<string, SelectionSet>

  datatype Definition =
    | Operation(set_: SelectionSet)
    | Fragment(name: Option<string>, set_: SelectionSet)
    | OtherDefinition

  /** A variable as JSON decoding, or a caller in Go, leaves it. `asInt` is what converting the float to an int gives: its
      integer part within the range of int64, and whatever the platform makes of it beyond. */
  datatype Given = Float(x: real, asInt: int) | Int(n: int) | OtherGiven

  type Variables = map<string, Given>

  const MAX_ALIASES := 24
  const MAX_DEPTH := 8
  const MAX_TRACKS_WITH_DETECTIONS := 100
  const DEFAULT_LIMIT := 100

  datatype Verdict = Accepted | TooWide(n: nat) | TooDeep(d: int) | TooFanned(limit: int)

  // ---- The walkers, as functions of the fragments on the path ----

  /** The body a spread enters; None for one that is unknown, empty, or already on the path. */
  function Entered(name: Option<string>, frags: Fragments, seen: set<string>): SelectionSet {
    if name.Some? && name.value !in seen && name.value in frags then frags[name.value] else NoSet
  }

  function Count(sels: Selections, frags: Fragments, seen: set<string>): nat
    decreases frags.Keys - seen, sels
  {
    if sels == [] then 0
    else
      (match sels[0]
       case Field(_, _, _) => 1
       case Inline(inner) => assert inner < sels[0]; if inner.Set? then Count(inner.value, frags, seen) else 0
       case Spread(name) =>
         var body := Entered(name, frags, seen);
         if body.Set? then Count(body.value, frags, seen + {name.value}) else 0)
      + Count(sels[1..], frags, seen)
  }

  function Max(a: int, b: int): int {
    if a >= b then a else b
  }

  function Depth(sels: Selections, at: int, frags: Fragments, seen: set<string>): int
    decreases frags.Keys - seen, sels
  {
    if sels == [] then at
    else
      Max(
        match sels[0]
        case Field(_, _, sub) => if sub.Set? then Depth(sub.value, at + 1, frags, seen) else at
        case Inline(inner) => assert inner < sels[0]; if inner.Set? then Depth(inner.value, at, frags, seen) else at
        case Spread(name) =>
          var body := Entered(name, frags, seen);
          if body.Set? then Depth(body.value, at, frags, seen + {name.value}) else at,
        Depth(sels[1..], at, frags, seen))
  }

  predicate SubtreeHas(sels: Selections, want: string, frags: Fragments, seen: set<string>)
    decreases frags.Keys - seen, sels
  {
    sels != [] &&
    (|| (match sels[0]
         case Field(name, _, sub) => name == Some(want) || (sub.Set? && SubtreeHas(sub.value, want, frags, seen))
         case Inline(inner) => assert inner < sels[0]; inner.Set? && SubtreeHas(inner.value, want, frags, seen)
         case Spread(name) =>
           var body := Entered(name, frags, seen);
           body.Set? && SubtreeHas(body.value, want, frags, seen + {name.value}))
     || SubtreeHas(sels[1..], want, frags, seen))
  }

  predicate FitsInt64(n: int) {
    -0x8000_0000_0000_0000 <= n < 0x8000_0000_0000_0000
  }

  /** The value of the first `limit` argument, through one variable; the default page size when absent or unusable. */
  function Limit(arguments: seq<Argument>, vars: Variables): int {
    if arguments == [] then DEFAULT_LIMIT
    else if arguments[0].name != Some("limit") then Limit(arguments[1..], vars)
    else
      match arguments[0].value
      case IntLiteral(n) => if FitsInt64(n) && n > 0 then n else DEFAULT_LIMIT
      case Variable(name) =>
        if name.None? || name.value !in vars then DEFAULT_LIMIT
        else
          (match vars[name.value]
           case Float(x, asInt) => if x > 0.0 then asInt else DEFAULT_LIMIT
           case Int(n) => if n > 0 then n else DEFAULT_LIMIT
           case OtherGiven => DEFAULT_LIMIT)
      case OtherValue => DEFAULT_LIMIT
  }

  /** A tracks field over a set with detections somewhere below it asks for this many parents too many. */
  function Excess(name: Option<string>, hasDetections: bool, arguments: seq<Argument>, vars: Variables): Option<int> {
    if name == Some("tracks") && hasDetections && Limit(arguments, vars) > MAX_TRACKS_WITH_DETECTIONS
    then Some(Limit(arguments, vars)) else None
  }

  function OrElse(a: Option<int>, b: Option<int>): Option<int> {
    if a.Some? then a else b
  }

  /** The first over-large page found, in document order. */
  function FanOut(sels: Selections, vars: Variables, frags: Fragments, seen: set<string>): Option<int>
    decreases frags.Keys - seen, sels
  {
    if sels == [] then None
    else
      OrElse(
        match sels[0]
        case Field(name, arguments, sub) =>
          if sub.NoSet? then None
          else OrElse(Excess(name, SubtreeHas(sub.value, "detections", frags, {}), arguments, vars),
                      FanOut(sub.value, vars, frags, seen))
        case Inline(inner) => assert inner < sels[0]; if inner.Set? then FanOut(inner.value, vars, frags, seen) else None
        case Spread(name) =>
          var body := Entered(name, frags, seen);
          if body.Set? then FanOut(body.value, vars, frags, seen + {name.value}) else None,
        FanOut(sels[1..], vars, frags, seen))
  }

  // ---- The reference: the document with every spread written out ----

  /** A query with no fragments left in it: fields only. */
  datatype Tree = Tree(name: Option<string>, arguments: seq<Argument>, sub: TreeSet)

  datatype TreeSet = Leaf | Branch(value: seq<Tree>)

  /** A rank for each fragment. Spreads are acyclic when a fragment only spreads fragments of lower rank. */
  type Ranks = map<string, nat>

  predicate Defined(name: Option<string>, frags: Fragments) {
    name.Some? && name.value in frags && frags[name.value].Set?
  }

  /** Every defined fragment spread anywhere in the selections has a rank below `level`. */
  predicate SpreadsBelow(sels: Selections, frags: Fragments, ranks: Ranks, level: nat) {
    sels != [] ==>
      && (match sels[0]
          case Field(_, _, sub) => sub.Set? ==> SpreadsBelow(sub.value, frags, ranks, level)
          case Inline(inner) => assert inner < sels[0]; inner.Set? ==> SpreadsBelow(inner.value, frags, ranks, level)
          case Spread(name) => Defined(name, frags) ==> name.value in ranks && ranks[name.value] < level)
      && SpreadsBelow(sels[1..], frags, ranks, level)
  }

  predicate Acyclic(frags: Fragments, ranks: Ranks) {
    forall n :: n in frags && frags[n].Set? ==> n in ranks && SpreadsBelow(frags[n].value, frags, ranks, ranks[n])
  }

  /** The fields a set of selections amounts to, each fragment's contents standing where it was spread. */
  function Expand(sels: Selections, frags: Fragments, ranks: Ranks, level: nat): seq<Tree>
    requires Acyclic(frags, ranks) && SpreadsBelow(sels, frags, ranks, level)
    decreases level, sels
  {
    if sels == [] then []
    else
      (match sels[0]
       case Field(name, arguments, sub) =>
         [Tree(name, arguments, if sub.Set? then Branch(Expand(sub.value, frags, ranks, level)) else Leaf)]
       case Inline(inner) => assert inner < sels[0]; if inner.Set? then Expand(inner.value, frags, ranks, level) else []
       case Spread(name) =>
         if Defined(name, frags) then Expand(frags[name.value].value, frags, ranks, ranks[name.value]) else [])
      + Expand(sels[1..], frags, ranks, level)
  }

  function TreeDepth(ts: seq<Tree>, at: int): int {
    if ts == [] then at
    else Max(if ts[0].sub.Branch? then TreeDepth(ts[0].sub.value, at + 1) else at, TreeDepth(ts[1..], at))
  }

  predicate TreeHas(ts: seq<Tree>, want: string) {
    ts != [] &&
    (ts[0].name == Some(want) || (ts[0].sub.Branch? && TreeHas(ts[0].sub.value, want)) || TreeHas(ts[1..], want))
  }

  function TreeFanOut(ts: seq<Tree>, vars: Variables): Option<int> {
    if ts == [] then None
    else
      OrElse(
        if ts[0].sub.Leaf? then None
        else OrElse(Excess(ts[0].name, TreeHas(ts[0].sub.value, "detections"), ts[0].arguments, vars),
                    TreeFanOut(ts[0].sub.value, vars)),
        TreeFanOut(ts[1..], vars))
  }

  lemma {:induction false} DepthAppend(a: seq<Tree>, b: seq<Tree>, at: int)
    ensures TreeDepth(a + b, at) == Max(TreeDepth(a, at), TreeDepth(b, at))
    ensures TreeDepth(b, at) >= at
  {
    if a != [] {
      DepthAppend(a[1..], b, at);
      assert (a + b)[1..] == a[1..] + b;
    } else {
      assert a + b == b;
      if b != [] {
        DepthAppend([], b[1..], at);
      }
    }
  }

  lemma {:induction false} HasAppend(a: seq<Tree>, b: seq<Tree>, want: string)
    ensures TreeHas(a + b, want) <==> TreeHas(a, want) || TreeHas(b, want)
  {
    if a != [] {
      HasAppend(a[1..], b, want);
      assert (a + b)[1..] == a[1..] + b;
    } else {
      assert a + b == b;
    }
  }

  lemma {:induction false} FanOutAppend(a: seq<Tree>, b: seq<Tree>, vars: Variables)
    ensures TreeFanOut(a + b, vars) == OrElse(TreeFanOut(a, vars), TreeFanOut(b, vars))
  {
    if a != [] {
      FanOutAppend(a[1..], b, vars);
      assert (a + b)[1..] == a[1..] + b;
    } else {
      assert a + b == b;
    }
  }

  /** Every fragment on the path ranks at or above the level being walked, so no spread met is on the path. */
  ghost predicate OnPath(seen: set<string>, ranks: Ranks, level: nat) {
    forall n :: n in seen && n in ranks ==> ranks[n] >= level
  }

  /** Walking spreads, minding the path, counts what the written-out document has at its top level. */
  lemma {:induction false} CountExpands(sels: Selections, frags: Fragments, ranks: Ranks, level: nat, seen: set<string>)
    requires Acyclic(frags, ranks) && SpreadsBelow(sels, frags, ranks, level) && OnPath(seen, ranks, level)
    ensures Count(sels, frags, seen) == |Expand(sels, frags, ranks, level)|
    decreases level, sels
  {
    if sels != [] {
      CountExpands(sels[1..], frags, ranks, level, seen);
      match sels[0]
      case Field(_, _, _) =>
      case Inline(inner) =>
        assert inner < sels[0];
        if inner.Set? {
          CountExpands(inner.value, frags, ranks, level, seen);
        }
      case Spread(name) =>
        if Defined(name, frags) {
          CountExpands(frags[name.value].value, frags, ranks, ranks[name.value], seen + {name.value});
        }
    }
  }

  lemma {:induction false} DepthExpands(sels: Selections, at: int, frags: Fragments, ranks: Ranks, level: nat, seen: set<string>)
    requires Acyclic(frags, ranks) && SpreadsBelow(sels, frags, ranks, level) && OnPath(seen, ranks, level)
    ensures Depth(sels, at, frags, seen) == TreeDepth(Expand(sels, frags, ranks, level), at)
    decreases level, sels
  {
    if sels != [] {
      DepthExpands(sels[1..], at, frags, ranks, level, seen);
      var rest := Expand(sels[1..], frags, ranks, level);
      match sels[0]
      case Field(name, arguments, sub) =>
        if sub.Set? {
          DepthExpands(sub.value, at + 1, frags, ranks, level, seen);
        }
        DepthAppend([Tree(name, arguments, if sub.Set? then Branch(Expand(sub.value, frags, ranks, level)) else Leaf)], rest, at);
      case Inline(inner) =>
        assert inner < sels[0];
        if inner.Set? {
          DepthExpands(inner.value, at, frags, ranks, level, seen);
          DepthAppend(Expand(inner.value, frags, ranks, level), rest, at);
        } else {
          DepthAppend([], rest, at);
        }
      case Spread(name) =>
        if Defined(name, frags) {
          var body := frags[name.value].value;
          DepthExpands(body, at, frags, ranks, ranks[name.value], seen + {name.value});
          DepthAppend(Expand(body, frags, ranks, ranks[name.value]), rest, at);
        } else {
          DepthAppend([], rest, at);
        }
    }
  }

  lemma {:induction false} HasExpands(sels: Selections, want: string, frags: Fragments, ranks: Ranks, level: nat, seen: set<string>)
    requires Acyclic(frags, ranks) && SpreadsBelow(sels, frags, ranks, level) && OnPath(seen, ranks, level)
    ensures SubtreeHas(sels, want, frags, seen) <==> TreeHas(Expand(sels, frags, ranks, level), want)
    decreases level, sels
  {
    if sels != [] {
      HasExpands(sels[1..], want, frags, ranks, level, seen);
      var rest := Expand(sels[1..], frags, ranks, level);
      match sels[0]
      case Field(name, arguments, sub) =>
        if sub.Set? {
          HasExpands(sub.value, want, frags, ranks, level, seen);
        }
        HasAppend([Tree(name, arguments, if sub.Set? then Branch(Expand(sub.value, frags, ranks, level)) else Leaf)], rest, want);
      case Inline(inner) =>
        assert inner < sels[0];
        if inner.Set? {
          HasExpands(inner.value, want, frags, ranks, level, seen);
          HasAppend(Expand(inner.value, frags, ranks, level), rest, want);
        } else {
          HasAppend([], rest, want);
        }
      case Spread(name) =>
        if Defined(name, frags) {
          var body := frags[name.value].value;
          HasExpands(body, want, frags, ranks, ranks[name.value], seen + {name.value});
          HasAppend(Expand(body, frags, ranks, ranks[name.value]), rest, want);
        } else {
          HasAppend([], rest, want);
        }
    }
  }

  lemma {:induction false} FanOutExpands(sels: Selections, vars: Variables, frags: Fragments, ranks: Ranks, level: nat, seen: set<string>)
    requires Acyclic(frags, ranks) && SpreadsBelow(sels, frags, ranks, level) && OnPath(seen, ranks, level)
    ensures FanOut(sels, vars, frags, seen) == TreeFanOut(Expand(sels, frags, ranks, level), vars)
    decreases level, sels
  {
    if sels != [] {
      FanOutExpands(sels[1..], vars, frags, ranks, level, seen);
      var rest := Expand(sels[1..], frags, ranks, level);
      match sels[0]
      case Field(name, arguments, sub) =>
        if sub.Set? {
          FanOutExpands(sub.value, vars, frags, ranks, level, seen);
          HasExpands(sub.value, "detections", frags, ranks, level, {});
        }
        FanOutAppend([Tree(name, arguments, if sub.Set? then Branch(Expand(sub.value, frags, ranks, level)) else Leaf)], rest, vars);
      case Inline(inner) =>
        assert inner < sels[0];
        if inner.Set? {
          FanOutExpands(inner.value, vars, frags, ranks, level, seen);
          FanOutAppend(Expand(inner.value, frags, ranks, level), rest, vars);
        } else {
          FanOutAppend([], rest, vars);
        }
      case Spread(name) =>
        if Defined(name, frags) {
          var body := frags[name.value].value;
          FanOutExpands(body, vars, frags, ranks, ranks[name.value], seen + {name.value});
          FanOutAppend(Expand(body, frags, ranks, ranks[name.value]), rest, vars);
        } else {
          FanOutAppend([], rest, vars);
        }
    }
  }

  // ---- What acceptance means ----

  /** Every field of a written-out query, at any depth. */
  function Nodes(ts: seq<Tree>): seq<Tree> {
    if ts == [] then []
    else [ts[0]] + (if ts[0].sub.Branch? then Nodes(ts[0].sub.value) else []) + Nodes(ts[1..])
  }

  lemma {:induction false} HasIsSomewhere(ts: seq<Tree>, want: string)
    ensures TreeHas(ts, want) <==> exists t :: t in Nodes(ts) && t.name == Some(want)
  {
    if ts != [] {
      if ts[0].sub.Branch? {
        HasIsSomewhere(ts[0].sub.value, want);
      }
      HasIsSomewhere(ts[1..], want);
      assert TreeHas(ts, want) ==> exists t :: t in Nodes(ts) && t.name == Some(want) by {
        if ts[0].name == Some(want) {
          assert ts[0] in Nodes(ts);
        }
      }
    }
  }

  /** What a value, given for a page size, asks for: a positive literal that is an int64, or a variable holding a positive
      number. */
  ghost predicate AsksFor(value: Value, vars: Variables, n: int) {
    match value
    case IntLiteral(m) => n == m && 0 < m < 9223372036854775808
    case Variable(name) =>
      && name.Some? && name.value in vars
      && (match vars[name.value]
          case Float(x, asInt) => n == asInt && x > 0.0
          case Int(m) => n == m && m > 0
          case OtherGiven => false)
    case OtherValue => false
  }

  /** The i-th argument is the first of those called limit. */
  ghost predicate FirstLimit(arguments: seq<Argument>, i: int) {
    && 0 <= i < |arguments| && arguments[i].name == Some("limit")
    && forall j :: 0 <= j < i ==> arguments[j].name != Some("limit")
  }

  ghost predicate Asks(arguments: seq<Argument>, vars: Variables, n: int) {
    exists i :: FirstLimit(arguments, i) && AsksFor(arguments[i].value, vars, n)
  }

  /** The loop reads the page size the arguments ask for, and 100 when they ask for none. */
  lemma {:induction false} LimitAsks(arguments: seq<Argument>, vars: Variables)
    ensures forall n :: Asks(arguments, vars, n) ==> Limit(arguments, vars) == n
    ensures Asks(arguments, vars, Limit(arguments, vars)) || Limit(arguments, vars) == 100
  {
    if arguments != [] {
      var rest := arguments[1..];
      if arguments[0].name == Some("limit") {
        assert forall i :: FirstLimit(arguments, i) ==> i == 0;
        assert FirstLimit(arguments, 0);
      } else {
        LimitAsks(rest, vars);
        forall n ensures Asks(arguments, vars, n) <==> Asks(rest, vars, n) {
          if Asks(arguments, vars, n) {
            var i :| FirstLimit(arguments, i) && AsksFor(arguments[i].value, vars, n);
            assert FirstLimit(rest, i - 1);
          }
          if Asks(rest, vars, n) {
            var i :| FirstLimit(rest, i) && AsksFor(rest[i].value, vars, n);
            assert FirstLimit(arguments, i + 1);
          }
        }
      }
    }
  }

  /** A page of more than a hundred tracks asked for, with detections selected somewhere below it. */
  ghost predicate OverBudget(t: Tree, vars: Variables) {
    && t.name == Some("tracks")
    && t.sub.Branch?
    && (exists d :: d in Nodes(t.sub.value) && d.name == Some("detections"))
    && exists n :: n > 100 && Asks(t.arguments, vars, n)
  }

  lemma ExcessExact(t: Tree, vars: Variables)
    requires t.sub.Branch?
    ensures var e := Excess(t.name, TreeHas(t.sub.value, "detections"), t.arguments, vars);
      (e.Some? <==> OverBudget(t, vars)) && (e.Some? ==> Asks(t.arguments, vars, e.value))
  {
    HasIsSomewhere(t.sub.value, "detections");
    LimitAsks(t.arguments, vars);
  }

  /** Some field in document order is over budget, none before it is, and it asks for n. */
  ghost predicate FirstOver(nodes: seq<Tree>, vars: Variables, i: int, n: int) {
    && 0 <= i < |nodes| && OverBudget(nodes[i], vars) && Asks(nodes[i].arguments, vars, n)
    && forall j :: 0 <= j < i ==> !OverBudget(nodes[j], vars)
  }

  lemma FirstOverAppend(a: seq<Tree>, b: seq<Tree>, vars: Variables)
    ensures forall i, n :: FirstOver(a, vars, i, n) ==> FirstOver(a + b, vars, i, n)
    ensures (forall t :: t in a ==> !OverBudget(t, vars)) ==>
            forall i, n :: FirstOver(b, vars, i, n) ==> FirstOver(a + b, vars, |a| + i, n)
  {
    hide OverBudget, Asks;
  }

  /** The walk over the written-out query finds nothing exactly when no field is over budget, and otherwise what the
      first such field asks for. */
  lemma {:induction false} FanOutIsSomewhere(ts: seq<Tree>, vars: Variables)
    ensures TreeFanOut(ts, vars).None? <==> forall t :: t in Nodes(ts) ==> !OverBudget(t, vars)
    ensures TreeFanOut(ts, vars).Some? ==> exists i :: FirstOver(Nodes(ts), vars, i, TreeFanOut(ts, vars).value)
  {
    if ts != [] {
      var below := if ts[0].sub.Branch? then Nodes(ts[0].sub.value) else [];
      if ts[0].sub.Branch? {
        FanOutIsSomewhere(ts[0].sub.value, vars);
        ExcessExact(ts[0], vars);
      }
      FanOutIsSomewhere(ts[1..], vars);
      hide TreeHas, Limit, OverBudget, Excess, Asks;
      LeafWithin(ts[0], vars);
      var rest := Nodes(ts[1..]);
      assert Nodes(ts) == ([ts[0]] + below) + rest;
      FirstOverAppend([ts[0]], below, vars);
      FirstOverAppend([ts[0]] + below, rest, vars);
      assert TreeFanOut(ts, vars).Some? && OverBudget(ts[0], vars) ==> FirstOver([ts[0]], vars, 0, TreeFanOut(ts, vars).value);
    }
  }

  lemma LeafWithin(t: Tree, vars: Variables)
    ensures t.sub.Leaf? ==> !OverBudget(t, vars)
  {
  }

  /** Fragments by name; a later definition of a name replaces an earlier one. */
  function FragmentsOf(doc: seq<Definition>): Fragments {
    if doc == [] then map[]
    else
      var last, before := doc[|doc| - 1], FragmentsOf(doc[..|doc| - 1]);
      if last.Fragment? && last.name.Some? then before[last.name.value := last.set_] else before
  }

  function OperationVerdict(sels: Selections, vars: Variables, frags: Fragments): Verdict {
    var n := Count(sels, frags, {});
    if n > MAX_ALIASES then TooWide(n)
    else
      var d := Depth(sels, 1, frags, {});
      if d > MAX_DEPTH then TooDeep(d)
      else
        var f := FanOut(sels, vars, frags, {});
        if f.Some? then TooFanned(f.value) else Accepted
  }

  function VerdictFrom(doc: seq<Definition>, vars: Variables, frags: Fragments): Verdict {
    if doc == [] then Accepted
    else
      var v := if doc[0].Operation? && doc[0].set_.Set? then OperationVerdict(doc[0].set_.value, vars, frags) else Accepted;
      if v.Accepted? then VerdictFrom(doc[1..], vars, frags) else v
  }

  /** The check on a parsed document; one that does not parse is left to the executor. */
  function CheckCost(doc: Option<seq<Definition>>, vars: Variables): Verdict {
    if doc.None? then Accepted else VerdictFrom(doc.value, vars, FragmentsOf(doc.value))
  }

  /** What the written-out operation must be: narrow, shallow, and with no over-large page of tracks. */
  ghost predicate Affordable(ts: seq<Tree>, vars: Variables) {
    && |ts| <= 24
    && TreeDepth(ts, 1) <= 8
    && forall t :: t in Nodes(ts) ==> !OverBudget(t, vars)
  }

  /** One operation is judged by its fields written out: their number first, then their depth, then the first field that
      is over budget. */
  lemma OperationExact(sels: Selections, vars: Variables, frags: Fragments, ranks: Ranks, level: nat)
    requires Acyclic(frags, ranks) && SpreadsBelow(sels, frags, ranks, level)
    ensures var v, ts := OperationVerdict(sels, vars, frags), Expand(sels, frags, ranks, level);
      && (v.Accepted? <==> Affordable(ts, vars))
      && (v.TooWide? <==> |ts| > 24) && (v.TooWide? ==> v.n == |ts|)
      && (v.TooDeep? <==> |ts| <= 24 && TreeDepth(ts, 1) > 8) && (v.TooDeep? ==> v.d == TreeDepth(ts, 1))
      && (v.TooFanned? ==> exists i :: FirstOver(Nodes(ts), vars, i, v.limit))
  {
    CountExpands(sels, frags, ranks, level, {});
    DepthExpands(sels, 1, frags, ranks, level, {});
    FanOutExpands(sels, vars, frags, ranks, level, {});
    FanOutIsSomewhere(Expand(sels, frags, ranks, level), vars);
    hide OverBudget, Asks, Expand, Count, Depth, FanOut, TreeFanOut, TreeDepth, Nodes, SpreadsBelow, Acyclic;
  }

  /** The body of a fragment is that of the last definition of its name; a name nothing defines has none. */
  lemma {:induction false} FragmentsExactly(doc: seq<Definition>, name: string)
    ensures name in FragmentsOf(doc) <==> exists d :: d in doc && d.Fragment? && d.name == Some(name)
    ensures forall i :: 0 <= i < |doc| && doc[i].Fragment? && doc[i].name == Some(name)
                        && (forall j :: i < j < |doc| ==> !(doc[j].Fragment? && doc[j].name == Some(name)))
                        ==> FragmentsOf(doc)[name] == doc[i].set_
  {
    if doc != [] {
      var before, last := doc[..|doc| - 1], doc[|doc| - 1];
      FragmentsExactly(before, name);
      assert doc == before + [last];
      assert last in doc && forall d :: d in before ==> d in doc;
      if !(last.Fragment? && last.name == Some(name)) {
        assert name in FragmentsOf(doc) <==> name in FragmentsOf(before);
        forall i | 0 <= i < |doc| && doc[i].Fragment? && doc[i].name == Some(name)
                   && (forall j :: i < j < |doc| ==> !(doc[j].Fragment? && doc[j].name == Some(name)))
          ensures FragmentsOf(doc)[name] == doc[i].set_
        {
          assert before[i] == doc[i];
        }
      }
    }
  }

  ghost predicate AllBelow(doc: seq<Definition>, frags: Fragments, ranks: Ranks, level: nat) {
    forall d :: d in doc && d.Operation? && d.set_.Set? ==> SpreadsBelow(d.set_.value, frags, ranks, level)
  }

  /** Each operation, with every fragment written out in place, is affordable. */
  ghost predicate AllAffordable(doc: seq<Definition>, vars: Variables, frags: Fragments, ranks: Ranks, level: nat)
    requires Acyclic(frags, ranks) && AllBelow(doc, frags, ranks, level)
  {
    forall d :: d in doc && d.Operation? && d.set_.Set? ==> Affordable(Expand(d.set_.value, frags, ranks, level), vars)
  }

  lemma {:induction false} AcceptedExactly(doc: seq<Definition>, vars: Variables, frags: Fragments, ranks: Ranks, level: nat)
    requires Acyclic(frags, ranks) && AllBelow(doc, frags, ranks, level)
    ensures VerdictFrom(doc, vars, frags).Accepted? <==> AllAffordable(doc, vars, frags, ranks, level)
  {
    hide Affordable, Expand, OperationVerdict, Acyclic, SpreadsBelow;
    if doc != [] {
      assert doc == [doc[0]] + doc[1..];
      if doc[0].Operation? && doc[0].set_.Set? {
        OperationExact(doc[0].set_.value, vars, frags, ranks, level);
      }
      AcceptedExactly(doc[1..], vars, frags, ranks, level);
    }
  }

  /** Main: a document whose fragments do not cycle is accepted exactly when each of its operations, with every
      fragment written out in place, is affordable. */
  lemma CheckedExactly(doc: seq<Definition>, vars: Variables, ranks: Ranks, level: nat)
    requires Acyclic(FragmentsOf(doc), ranks) && AllBelow(doc, FragmentsOf(doc), ranks, level)
    ensures CheckCost(Some(doc), vars).Accepted? <==> AllAffordable(doc, vars, FragmentsOf(doc), ranks, level)
  {
    AcceptedExactly(doc, vars, FragmentsOf(doc), ranks, level);
    hide VerdictFrom, AllAffordable;
  }

  // ---- Limits that are no int64 ----

  const TWO_63 := 9223372036854775808.0

  /** What Go promises of the conversion of a positive float. */
  predicate Converts(x: real, asInt: int) {
    FitsInt64(asInt) && (0.0 < x < TWO_63 ==> asInt == x.Floor)
  }

  /** A query for tracks with their detections. */
  function TracksQuery(arguments: seq<Argument>): seq<Definition> {
    [Operation(Set([Field(Some("tracks"), arguments, Set([Field(Some("detections"), [], NoSet)]))]))]
  }

  lemma TracksQueryChecked(arguments: seq<Argument>, vars: Variables)
    ensures var v, e := CheckCost(Some(TracksQuery(arguments)), vars), Excess(Some("tracks"), true, arguments, vars);
      v == if e.Some? then TooFanned(e.value) else Accepted
  {
    var inner := [Field(Some("detections"), [], NoSet)];
    var sels := [Field(Some("tracks"), arguments, Set(inner))];
    hide Excess;
    assert Depth(inner[1..], 2, map[], {}) == 2;
    assert Depth(inner, 2, map[], {}) == 2;
    assert SubtreeHas(inner, "detections", map[], {});
    assert FanOut(inner[1..], vars, map[], {}) == None;
    assert FanOut(inner, vars, map[], {}) == None;
    assert sels[1..] == [];
    assert Count(sels, map[], {}) == 1 && Depth(sels, 1, map[], {}) == 2;
    assert FanOut(sels, vars, map[], {}) == Excess(Some("tracks"), true, arguments, vars);
    var doc := TracksQuery(arguments);
    assert FragmentsOf(doc[..0]) == map[] && FragmentsOf(doc) == map[];
    assert VerdictFrom(doc[1..], vars, map[]) == Accepted;
  }

  /** Main: the page size that counts is that of the first argument called limit, whatever the arguments around it. A
      literal or a variable that asks for n tracks, n positive and an int64 if it is a literal, is refused with n exactly
      when n is over 100; anything else asks for the default page, which passes. */
  lemma PageChecked(before: seq<Argument>, value: Value, after: seq<Argument>, vars: Variables)
    requires forall a :: a in before ==> a.name != Some("limit")
    ensures var v := CheckCost(Some(TracksQuery(before + [Argument(Some("limit"), value)] + after)), vars);
      && (forall n :: AsksFor(value, vars, n) ==> v == if n <= 100 then Accepted else TooFanned(n))
      && ((forall n :: !AsksFor(value, vars, n)) ==> v == Accepted)
  {
    var arguments := before + [Argument(Some("limit"), value)] + after;
    TracksQueryChecked(arguments, vars);
    LimitAsks(arguments, vars);
    assert arguments[|before|] == Argument(Some("limit"), value);
    assert FirstLimit(arguments, |before|);
    assert forall i :: FirstLimit(arguments, i) ==> i == |before|;
    assert forall n :: Asks(arguments, vars, n) <==> AsksFor(value, vars, n);
    hide Limit, CheckCost, TracksQuery;
  }

  /** The same, case by case. */
  lemma PageSizes(before: seq<Argument>, n: int, x: string, after: seq<Argument>, vars: Variables)
    requires forall a :: a in before ==> a.name != Some("limit")
    ensures var v := CheckCost(Some(TracksQuery(before + [Argument(Some("limit"), IntLiteral(n))] + after)), vars);
      v == if 100 < n < 9223372036854775808 then TooFanned(n) else Accepted
    ensures var v := CheckCost(Some(TracksQuery(before + [Argument(Some("limit"), Variable(Some(x)))] + after)), vars);
      v == if x in vars && vars[x].Int? && vars[x].n > 100 then TooFanned(vars[x].n)
           else if x in vars && vars[x].Float? && vars[x].x > 0.0 && vars[x].asInt > 100 then TooFanned(vars[x].asInt)
           else Accepted
    ensures CheckCost(Some(TracksQuery(before)), vars) == Accepted
  {
    PageChecked(before, IntLiteral(n), after, vars);
    PageChecked(before, Variable(Some(x)), after, vars);
    TracksQueryChecked(before, vars);
    LimitAsks(before, vars);
    hide CheckCost, TracksQuery;
    assert 0 < n < 9223372036854775808 ==> AsksFor(IntLiteral(n), vars, n);
    if x in vars {
      match vars[x]
      case Float(_, asInt) => assert vars[x].x > 0.0 ==> AsksFor(Variable(Some(x)), vars, asInt);
      case Int(m) => assert m > 0 ==> AsksFor(Variable(Some(x)), vars, m);
      case OtherGiven =>
    }
  }

  /** A query for tracks with their detections, the page size in a variable. */
  function PageQuery(): seq<Definition> {
    TracksQuery([Argument(Some("limit"), Variable(Some("n")))])
  }

  /** A positive page size given as a float is checked for what it asks exactly when it is below 2^63, or when what the
      conversion makes of it happens to be over the budget too. */
  lemma FloatLimitExact(x: real, asInt: int)
    requires x > 0.0 && Converts(x, asInt)
    ensures var accepted := CheckCost(Some(PageQuery()), map["n" := Float(x, asInt)]).Accepted?;
      (accepted <==> x < 101.0) <==> x < TWO_63 || asInt > 100
  {
    TracksQueryChecked([Argument(Some("limit"), Variable(Some("n")))], map["n" := Float(x, asInt)]);
  }

  /** A page of 10^19 tracks, which a conversion to the least int64 lets through. */
  lemma HugePageAccepted()
    ensures Converts(10000000000000000000.0, -0x8000_0000_0000_0000)
    ensures CheckCost(Some(PageQuery()), map["n" := Float(10000000000000000000.0, -0x8000_0000_0000_0000)]).Accepted?
  {
    FloatLimitExact(10000000000000000000.0, -0x8000_0000_0000_0000);
  }

  // ---- The walkers themselves, over one shared set ----

  class Path {
    var names: set<string>

    constructor ()
      ensures names == {}
    {
      names := {};
    }

    method EnterFragment(name: Option<string>, frags: Fragments) returns (body: SelectionSet)
      modifies this
      ensures body == Entered(name, frags, old(names))
      ensures names == if body.Set? then old(names) + {name.value} else old(names)
    {
      if name.None? || name.value in names || name.value !in frags || frags[name.value].NoSet? {
        return NoSet;
      }
      names := names + {name.value};
      return frags[name.value];
    }
  }

  /** Terminates on every document, cyclic ones included, and leaves the path as it found it. */
  method CountSelections(sels: Selections, frags: Fragments, seen: Path) returns (n: nat)
    modifies seen
    ensures n == Count(sels, frags, old(seen.names)) && seen.names == old(seen.names)
    decreases frags.Keys - seen.names, sels
  {
    n := 0;
    for i := 0 to |sels|
      invariant seen.names == old(seen.names)
      invariant n + Count(sels[i..], frags, seen.names) == Count(sels, frags, seen.names)
    {
      assert sels[i..][0] == sels[i] && sels[i..][1..] == sels[i + 1..];
      match sels[i] {
        case Field(_, _, _) =>
          n := n + 1;
        case Inline(inner) =>
          assert inner < sels[i];
          if inner.Set? {
            var k := CountSelections(inner.value, frags, seen);
            n := n + k;
          }
        case Spread(name) =>
          var body := seen.EnterFragment(name, frags);
          if body.Set? {
            var k := CountSelections(body.value, frags, seen);
            n := n + k;
            seen.names := seen.names - {name.value};
          }
      }
    }
  }

  method MeasureDepth(sels: Selections, at: int, frags: Fragments, seen: Path) returns (deepest: int)
    modifies seen
    ensures deepest == Depth(sels, at, frags, old(seen.names)) && seen.names == old(seen.names)
    decreases frags.Keys - seen.names, sels
  {
    deepest := at;
    for i := 0 to |sels|
      invariant seen.names == old(seen.names) && deepest >= at
      invariant Max(deepest, Depth(sels[i..], at, frags, seen.names)) == Max(at, Depth(sels, at, frags, seen.names))
    {
      assert sels[i..][0] == sels[i] && sels[i..][1..] == sels[i + 1..];
      var d := at;
      match sels[i] {
        case Field(_, _, sub) =>
          if sub.Set? {
            d := MeasureDepth(sub.value, at + 1, frags, seen);
          }
        case Inline(inner) =>
          assert inner < sels[i];
          if inner.Set? {
            d := MeasureDepth(inner.value, at, frags, seen);
          }
        case Spread(name) =>
          var body := seen.EnterFragment(name, frags);
          if body.Set? {
            d := MeasureDepth(body.value, at, frags, seen);
            seen.names := seen.names - {name.value};
          }
      }
      if d > deepest {
        deepest := d;
      }
    }
    DepthAtLeast(sels, at, frags, seen.names);
  }

  lemma {:induction false} DepthAtLeast(sels: Selections, at: int, frags: Fragments, seen: set<string>)
    ensures Depth(sels, at, frags, seen) >= at
  {
    if sels != [] {
      DepthAtLeast(sels[1..], at, frags, seen);
    }
  }

  method FindInSubtree(sels: Selections, want: string, frags: Fragments, seen: Path) returns (found: bool)
    modifies seen
    ensures found == SubtreeHas(sels, want, frags, old(seen.names)) && seen.names == old(seen.names)
    decreases frags.Keys - seen.names, sels
  {
    for i := 0 to |sels|
      invariant seen.names == old(seen.names)
      invariant SubtreeHas(sels, want, frags, seen.names) == SubtreeHas(sels[i..], want, frags, seen.names)
    {
      assert sels[i..][0] == sels[i] && sels[i..][1..] == sels[i + 1..];
      found := false;
      match sels[i] {
        case Field(name, _, sub) =>
          found := name == Some(want);
          if !found && sub.Set? {
            found := FindInSubtree(sub.value, want, frags, seen);
          }
        case Inline(inner) =>
          assert inner < sels[i];
          if inner.Set? {
            found := FindInSubtree(inner.value, want, frags, seen);
          }
        case Spread(name) =>
          var body := seen.EnterFragment(name, frags);
          if body.Set? {
            found := FindInSubtree(body.value, want, frags, seen);
            seen.names := seen.names - {name.value};
          }
      }
      if found {
        return;
      }
    }
    found := false;
  }

  method LimitArgument(arguments: seq<Argument>, vars: Variables) returns (n: int)
    ensures n == Limit(arguments, vars)
  {
    for i := 0 to |arguments|
      invariant Limit(arguments, vars) == Limit(arguments[i..], vars)
    {
      assert arguments[i..][1..] == arguments[i + 1..];
      if arguments[i].name == Some("limit") {
        match arguments[i].value {
          case IntLiteral(m) =>
            if FitsInt64(m) && m > 0 {
              return m;
            }
          case Variable(name) =>
            if name.Some? && name.value in vars {
              match vars[name.value] {
                case Float(x, asInt) =>
                  if x > 0.0 {
                    return asInt;
                  }
                case Int(m) =>
                  if m > 0 {
                    return m;
                  }
                case OtherGiven =>
              }
            }
          case OtherValue =>
        }
        return DEFAULT_LIMIT;
      }
    }
    return DEFAULT_LIMIT;
  }

  method CheckFanOut(sels: Selections, vars: Variables, frags: Fragments, seen: Path) returns (excess: Option<int>)
    modifies seen
    ensures excess == FanOut(sels, vars, frags, old(seen.names)) && seen.names == old(seen.names)
    decreases frags.Keys - seen.names, sels
  {
    for i := 0 to |sels|
      invariant seen.names == old(seen.names)
      invariant FanOut(sels, vars, frags, seen.names) == FanOut(sels[i..], vars, frags, seen.names)
    {
      assert sels[i..][0] == sels[i] && sels[i..][1..] == sels[i + 1..];
      excess := None;
      match sels[i] {
        case Spread(name) =>
          var body := seen.EnterFragment(name, frags);
          if body.Set? {
            excess := CheckFanOut(body.value, vars, frags, seen);
            seen.names := seen.names - {name.value};
          }
        case Field(name, arguments, sub) =>
          if sub.Set? {
            var fresh_ := new Path();
            var has := FindInSubtree(sub.value, "detections", frags, fresh_);
            if name == Some("tracks") && has {
              var limit := LimitArgument(arguments, vars);
              if limit > MAX_TRACKS_WITH_DETECTIONS {
                return Some(limit);
              }
            }
            excess := CheckFanOut(sub.value, vars, frags, seen);
          }
        case Inline(inner) =>
          assert inner < sels[i];
          if inner.Set? {
            excess := CheckFanOut(inner.value, vars, frags, seen);
          }
      }
      if excess.Some? {
        return;
      }
    }
    excess := None;
  }

  method Check(doc: Option<seq<Definition>>, vars: Variables) returns (v: Verdict)
    ensures v == CheckCost(doc, vars)
  {
    if doc.None? {
      return Accepted;
    }
    var defs, frags: Fragments := doc.value, map[];
    for i := 0 to |defs|
      invariant frags == FragmentsOf(defs[..i])
    {
      assert defs[..i + 1][..i] == defs[..i];
      if defs[i].Fragment? && defs[i].name.Some? {
        frags := frags[defs[i].name.value := defs[i].set_];
      }
    }
    assert defs[..|defs|] == defs;
    for i := 0 to |defs|
      invariant VerdictFrom(defs, vars, frags) == VerdictFrom(defs[i..], vars, frags)
    {
      assert defs[i..][0] == defs[i] && defs[i..][1..] == defs[i + 1..];
      if defs[i].Operation? && defs[i].set_.Set? {
        var sels := defs[i].set_.value;
        var path := new Path();
        var n := CountSelections(sels, frags, path);
        if n > MAX_ALIASES {
          return TooWide(n);
        }
        path := new Path();
        var d := MeasureDepth(sels, 1, frags, path);
        if d > MAX_DEPTH {
          return TooDeep(d);
        }
        path := new Path();
        var f := CheckFanOut(sels, vars, frags, path);
        if f.Some? {
          return TooFanned(f.value);
        }
      }
    }
    return Accepted;
  }
}
