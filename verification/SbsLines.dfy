/**
 The SBS line reader: bytes arrive in chunks of any size between timeouts, lines are cut at
 newlines, carriage returns are dropped, and a line over 64 KiB is given up on. What the parser
 makes of a line and whether the bus takes a detection are inputs.
 */
module SbsLines {
  import opened Options

  const MAX_LINE_BYTES := 65536
  const MAX_TRACKED_ICAOS := 4096
  const NEWLINE := 10
  const RETURN := 13

  type Byte = b: int | 0 <= b < 256

  // ---- The stream cut at newlines ----

  /** A stream's newline-terminated segments, without their newlines, and what follows the last newline. */
  datatype Cut = Cut(segments: seq<seq<Byte>>, tail: seq<Byte>)

  function CutOf(s: seq<Byte>): Cut {
    if s == [] then Cut([], [])
    else
      var before, last := CutOf(s[..|s| - 1]), s[|s| - 1];
      if last == NEWLINE then Cut(before.segments + [before.tail], [])
      else before.(tail := before.tail + [last])
  }

  function Terminated(segments: seq<seq<Byte>>): seq<Byte> {
    if segments == [] then []
    else Terminated(segments[..|segments| - 1]) + segments[|segments| - 1] + [NEWLINE]
  }

  predicate FreeOfNewlines(c: Cut) {
    NEWLINE !in c.tail && forall i :: 0 <= i < |c.segments| ==> NEWLINE !in c.segments[i]
  }

  lemma {:induction false} CutRejoins(s: seq<Byte>)
    ensures var c := CutOf(s); FreeOfNewlines(c) && Terminated(c.segments) + c.tail == s
  {
    if s != [] {
      var front, last := s[..|s| - 1], s[|s| - 1];
      CutRejoins(front);
      assert s == front + [last];
      var b, c := CutOf(front), CutOf(s);
      if last == NEWLINE {
        assert c.segments[..|c.segments| - 1] == b.segments;
      }
    }
  }

  /** Main: the cut is the only way to read the stream as lines: newline-free segments, each ended by a newline, and a
      newline-free rest. */
  lemma {:induction false} CutUnique(s: seq<Byte>, c: Cut)
    ensures c == CutOf(s) <==> FreeOfNewlines(c) && Terminated(c.segments) + c.tail == s
  {
    CutRejoins(s);
    if FreeOfNewlines(c) && Terminated(c.segments) + c.tail == s {
      OnlyCut(s, c);
    }
  }

  lemma {:induction false} OnlyCut(s: seq<Byte>, c: Cut)
    requires FreeOfNewlines(c) && Terminated(c.segments) + c.tail == s
    ensures c == CutOf(s)
    decreases |s|
  {
    var n, k := |c.segments|, |c.tail|;
    if k > 0 {
      assert s[|s| - 1] == c.tail[k - 1];
      assert s[..|s| - 1] == Terminated(c.segments) + c.tail[..k - 1];
      OnlyCut(s[..|s| - 1], c.(tail := c.tail[..k - 1]));
      assert c.tail == c.tail[..k - 1] + [c.tail[k - 1]];
    } else if n > 0 {
      var front := Terminated(c.segments[..n - 1]) + c.segments[n - 1];
      assert s == front + [NEWLINE];
      assert s[..|s| - 1] == front;
      OnlyCut(front, Cut(c.segments[..n - 1], c.segments[n - 1]));
      assert c.segments == c.segments[..n - 1] + [c.segments[n - 1]];
    }
  }

  // ---- What is made of the segments ----

  function WithoutReturns(s: seq<Byte>): (t: seq<Byte>)
    ensures |t| <= |s|
  {
    if s == [] then []
    else
      var front, last := WithoutReturns(s[..|s| - 1]), s[|s| - 1];
      if last == RETURN then front else front + [last]
  }

  /** Carriage returns go, one by one; every other byte stays, in its place. */
  lemma {:induction false} ReturnsDropped(a: seq<Byte>, b: seq<Byte>, x: Byte)
    ensures WithoutReturns(a + b) == WithoutReturns(a) + WithoutReturns(b)
    ensures WithoutReturns([x]) == if x == 13 then [] else [x]
  {
    if b == [] {
      assert a + b == a;
    } else {
      var front := b[..|b| - 1];
      ReturnsDropped(a, front, x);
      assert (a + b)[..|a + b| - 1] == a + front;
    }
    assert [x][..0] == [];
  }

  datatype Event = Line(text: seq<Byte>) | TooLong

  function EventOf(segment: seq<Byte>): Event {
    var text := WithoutReturns(segment);
    if |text| <= MAX_LINE_BYTES then Line(text) else TooLong
  }

  /** One event a newline. */
  function Events(s: seq<Byte>): (es: seq<Event>)
    ensures |es| == |CutOf(s).segments|
  {
    var c := CutOf(s);
    seq(|c.segments|, i requires 0 <= i < |c.segments| => EventOf(c.segments[i]))
  }

  /** Each newline ends a line, given up on exactly when more than 64 KiB of it are left without the carriage returns. */
  lemma EventsExactly(s: seq<Byte>, i: nat)
    requires i < |CutOf(s).segments|
    ensures var text := WithoutReturns(CutOf(s).segments[i]);
      if |text| > 65536 then Events(s)[i] == TooLong else Events(s)[i] == Line(text)
  {}

  /** What the reader holds of an unfinished line: all of it, or only that it is too long. */
  predicate Holds(line: seq<Byte>, oversized: bool, tail: seq<Byte>) {
    && |line| <= MAX_LINE_BYTES
    && (oversized <==> |WithoutReturns(tail)| > MAX_LINE_BYTES)
    && (!oversized ==> line == WithoutReturns(tail))
  }

  lemma AfterNewline(s: seq<Byte>)
    ensures CutOf(s + [NEWLINE]).tail == []
    ensures Events(s + [NEWLINE]) == Events(s) + [EventOf(CutOf(s).tail)]
  {
    var t := s + [NEWLINE];
    assert t[..|t| - 1] == s;
  }

  lemma AfterByte(s: seq<Byte>, b: Byte)
    requires b != NEWLINE
    ensures CutOf(s + [b]).tail == CutOf(s).tail + [b] && Events(s + [b]) == Events(s)
    ensures WithoutReturns(CutOf(s).tail + [b]) == WithoutReturns(CutOf(s).tail) + if b == RETURN then [] else [b]
  {
    var t, u := s + [b], CutOf(s).tail + [b];
    assert t[..|t| - 1] == s && u[..|u| - 1] == CutOf(s).tail;
  }

  // ---- Reads ----

  /** One `fill_buf`: bytes (none at end of stream), a retry, or a failure. */
  datatype Read = Bytes(data: seq<Byte>) | Retry | Failed

  predicate Ends(r: Read) {
    r.Failed? || (r.Bytes? && r.data == [])
  }

  /** The bytes read up to the end of the stream or a failure. */
  function Delivered(arrivals: seq<Read>): seq<Byte> {
    if arrivals == [] || Ends(arrivals[0]) then []
    else (if arrivals[0].Bytes? then arrivals[0].data else []) + Delivered(arrivals[1..])
  }

  /** The bytes of the reads, end to end; a retry brings none. */
  function AllData(arrivals: seq<Read>): seq<Byte> {
    if arrivals == [] then []
    else (if arrivals[0].Bytes? then arrivals[0].data else []) + AllData(arrivals[1..])
  }

  /** Main: a stream is read until the first empty read or failure, past every retry, and is the bytes read until then. */
  lemma {:induction false} DeliveredExactly(arrivals: seq<Read>, n: nat)
    requires n <= |arrivals| && forall k :: 0 <= k < n ==> arrivals[k].Retry? || (arrivals[k].Bytes? && arrivals[k].data != [])
    requires n == |arrivals| || arrivals[n] == Failed || arrivals[n] == Bytes([])
    ensures Delivered(arrivals) == AllData(arrivals[..n])
  {
    if n > 0 {
      DeliveredExactly(arrivals[1..], n - 1);
      assert arrivals[..n][1..] == arrivals[1..][..n - 1] && arrivals[..n][0] == arrivals[0];
    }
  }

  lemma DeliveredStep(arrivals: seq<Read>, i: nat)
    requires i < |arrivals|
    ensures Delivered(arrivals[i..]) == if Ends(arrivals[i]) then [] else
        (if arrivals[i].Bytes? then arrivals[i].data else []) + Delivered(arrivals[i + 1..])
  {
    assert arrivals[i..][1..] == arrivals[i + 1..];
  }

  lemma NothingLeft(arrivals: seq<Read>)
    ensures Delivered(arrivals[|arrivals|..]) == [] && arrivals[0..] == arrivals
  {}

  lemma StartOfStream()
    ensures Events([]) == [] && Holds([], false, CutOf([]).tail)
  {}

  // ---- The accounts ----

  /** None for a line that is no detection; a detection may carry an address. */
  type Parser = seq<Byte> -> Option<Option<string>>

  /** The detections the lines became, in order. */
  function Detections(parse: Parser, log: seq<Event>): seq<Option<string>> {
    if log == [] then []
    else
      var before, last := Detections(parse, log[..|log| - 1]), log[|log| - 1];
      if last.Line? && parse(last.text).Some? then before + [parse(last.text).value] else before
  }

  /** How many of the first `n` detections the bus refuses. */
  function Refused(accepts: nat -> bool, n: nat): (r: nat)
    ensures r <= n
  {
    if n == 0 then 0 else Refused(accepts, n - 1) + if accepts(n - 1) then 0 else 1
  }

  /** The refused are those the bus does not accept. */
  lemma {:induction false} RefusedExactly(accepts: nat -> bool, n: nat)
    ensures Refused(accepts, n) == |set k | 0 <= k < n && !accepts(k)|
  {
    var refused := set k | 0 <= k < n && !accepts(k);
    if n > 0 {
      RefusedExactly(accepts, n - 1);
      var before := set k | 0 <= k < n - 1 && !accepts(k);
      assert refused == before + if accepts(n - 1) then {} else {n - 1};
    } else {
      assert refused == {};
    }
  }

  /** Each line the parser takes becomes one detection, in order; no other does. */
  lemma {:induction false} DetectionsExactly(parse: Parser, a: seq<Event>, b: seq<Event>, text: seq<Byte>)
    ensures Detections(parse, a + b) == Detections(parse, a) + Detections(parse, b)
    ensures Detections(parse, [TooLong]) == []
    ensures Detections(parse, [Line(text)]) == if parse(text).Some? then [parse(text).value] else []
  {
    if b == [] {
      assert a + b == a;
    } else {
      var front := b[..|b| - 1];
      DetectionsExactly(parse, a, front, text);
      assert (a + b)[..|a + b| - 1] == a + front;
    }
    assert [TooLong][..0] == [] && [Line(text)][..0] == [];
  }

  function Addresses(detections: seq<Option<string>>): set<string> {
    set i | 0 <= i < |detections| && detections[i].Some? :: detections[i].value
  }

  lemma DetectionsStep(parse: Parser, log: seq<Event>, e: Event)
    ensures Detections(parse, log + [e]) ==
        if e.Line? && parse(e.text).Some? then Detections(parse, log) + [parse(e.text).value] else Detections(parse, log)
  {
    var l := log + [e];
    assert l[..|l| - 1] == log;
  }

  lemma AddressesStep(ds: seq<Option<string>>, d: Option<string>)
    ensures Addresses(ds + [d]) == Addresses(ds) + if d.Some? then {d.value} else {}
  {
    var es := ds + [d];
    forall a ensures a in Addresses(es) <==> a in Addresses(ds) + if d.Some? then {d.value} else {} {
      if a in Addresses(ds) {
        var i :| 0 <= i < |ds| && ds[i].Some? && ds[i].value == a;
        assert es[i].value == a;
      }
      if d == Some(a) {
        assert es[|ds|].value == a;
      }
    }
  }

  /** What the capped set says of the addresses seen: all of them, or that there are more than it holds. */
  ghost predicate Capped(icaos: set<string>, saturated: bool, seen: set<string>) {
    && icaos <= seen
    && |icaos| <= 4096
    && (saturated <==> |seen| > 4096)
    && (saturated ==> |icaos| == 4096)
    && (!saturated ==> icaos == seen)
  }

  /** The counters of one receiver, over all its connections. */
  class Stats {
    const parse: Parser
    const accepts: nat -> bool
    var linesRead: nat
    var parsed: nat
    var unparsed: nat
    var dropped: nat
    var icaos: set<string>
    var icaosSaturated: bool
    ghost var log: seq<Event>

    constructor (parse: Parser, accepts: nat -> bool)
      ensures Valid() && log == [] && this.parse == parse && this.accepts == accepts
    {
      this.parse, this.accepts := parse, accepts;
      linesRead, parsed, unparsed, dropped, icaos, icaosSaturated, log := 0, 0, 0, 0, {}, false, [];
    }

    /** The counters are the accounts of the lines handled so far. */
    ghost predicate Valid()
      reads this
    {
      var ds := Detections(parse, log);
      && linesRead == |log| == parsed + unparsed
      && parsed == |ds|
      && dropped == Refused(accepts, parsed) <= parsed
      && Capped(icaos, icaosSaturated, Addresses(ds))
    }

    method HandleLine(line: seq<Byte>)
      requires Valid()
      modifies this
      ensures Valid() && log == old(log) + [Line(line)]
    {
      hide Detections, Addresses, Capped;
      ghost var before := Detections(parse, log);
      DetectionsStep(parse, log, Line(line));
      log := log + [Line(line)];
      linesRead := linesRead + 1;
      var detection := parse(line);
      if detection.None? {
        unparsed := unparsed + 1;
        return;
      }
      AddressesStep(before, detection.value);
      if detection.value.Some? {
        Acquire(detection.value.value, Addresses(before));
      } else {
        assert Addresses(before) + {} == Addresses(before);
      }
      if !accepts(parsed) {
        dropped := dropped + 1;
      }
      parsed := parsed + 1;
    }

    method Acquire(icao: string, ghost seen: set<string>)
      requires Capped(icaos, icaosSaturated, seen)
      modifies `icaos, `icaosSaturated
      ensures Capped(icaos, icaosSaturated, seen + {icao})
    {
      if icao in seen {
        assert seen + {icao} == seen;
      }
      if icao !in icaos {
        if |icaos| < MAX_TRACKED_ICAOS {
          icaos := icaos + {icao};
        } else if !icaosSaturated {
          icaosSaturated := true;
        }
      }
    }

    /** Main: one connection. Whatever the chunks and the timeouts between them, the lines handled are those of the bytes
        delivered, in order; the unfinished last one is lost. */
    method Pump(arrivals: seq<Read>)
      requires Valid()
      modifies this
      ensures Valid() && log == old(log) + Events(Delivered(arrivals))
    {
      hide Detections, Addresses, Capped, Events, CutOf, Holds, Delivered, Refused;
      StartOfStream();
      var line: seq<Byte>, oversized := [], false;
      ghost var done: seq<Byte> := [];
      for i := 0 to |arrivals|
        invariant Valid() && Holds(line, oversized, CutOf(done).tail)
        invariant log == old(log) + Events(done)
        invariant done + Delivered(arrivals[i..]) == Delivered(arrivals)
      {
        DeliveredStep(arrivals, i);
        assert done + [] == done;
        match arrivals[i] {
          case Failed =>
            return;
          case Retry =>
            assert [] + Delivered(arrivals[i + 1..]) == Delivered(arrivals[i + 1..]);
          case Bytes(chunk) =>
            if chunk == [] {
              return;
            }
            line, oversized := TakeChunk(chunk, line, oversized, done, old(log));
            assert done + (chunk + Delivered(arrivals[i + 1..])) == done + chunk + Delivered(arrivals[i + 1..]);
            done := done + chunk;
        }
      }
      NothingLeft(arrivals);
    }

    /** The byte loop. */
    method TakeChunk(chunk: seq<Byte>, line0: seq<Byte>, oversized0: bool, ghost done: seq<Byte>, ghost before: seq<Event>)
      returns (line: seq<Byte>, oversized: bool)
      requires Valid() && log == before + Events(done) && Holds(line0, oversized0, CutOf(done).tail)
      modifies this
      ensures Valid() && log == before + Events(done + chunk) && Holds(line, oversized, CutOf(done + chunk).tail)
    {
      hide Detections, Addresses, Capped, Events, CutOf, WithoutReturns, Refused;
      line, oversized := line0, oversized0;
      ghost var taken := done;
      for k := 0 to |chunk|
        invariant Valid() && log == before + Events(taken) && Holds(line, oversized, CutOf(taken).tail)
        invariant taken == done + chunk[..k]
      {
        var byte := chunk[k];
        ghost var held := taken;
        taken := taken + [byte];
        if byte == NEWLINE {
          AfterNewline(held);
          if oversized {
            Skip();
            oversized := false;
          } else {
            HandleLine(line);
          }
          line := [];
          continue;
        }
        AfterByte(held, byte);
        if byte == RETURN {
          continue;
        }
        if |line| >= MAX_LINE_BYTES {
          if !oversized {
            oversized := true;
            line := [];
          }
          continue;
        }
        line := line + [byte];
      }
      assert chunk[..|chunk|] == chunk;
    }

    /** The newline of a line given up on. */
    method Skip()
      requires Valid()
      modifies this
      ensures Valid() && log == old(log) + [TooLong]
    {
      DetectionsStep(parse, log, TooLong);
      log := log + [TooLong];
      linesRead := linesRead + 1;
      unparsed := unparsed + 1;
    }
  }
}
