/**
 The ZMTP 3.0 wire format as the sensor writes and reads it: length-prefixed frames, multipart
 messages, commands and metadata properties (formal grammar of ZMTP 3.0, ZeroMQ RFC 23).
 */
module ZmtpCodec {
  import opened Options

  type Byte = b: int | 0 <= b < 256
  type Bytes = seq<Byte>

  const FLAG_MORE: Byte := 1
  const FLAG_LONG: Byte := 2
  const FLAG_COMMAND: Byte := 4
  const MAX_FRAME_BYTES := 16 * 1024 * 1024
  /** The most frames one message can have: the reader gives up when a 65th is not the last. */
  const MAX_FRAMES := 65

  datatype Frame = Frame(command: bool, body: Bytes)

  /** What reading from a stream gives: a value and what is left, too few bytes, or a refusal. */
  datatype Read<+T> = Got(value: T, rest: Bytes) | Eof | Protocol

  predicate Has(flags: Byte, flag: Byte)
    requires flag > 0
  {
    flags / flag % 2 == 1
  }

  // ---- Lengths ----

  function Pow256(width: nat): (p: nat)
    ensures p > 0
  {
    if width == 0 then 1 else 256 * Pow256(width - 1)
  }

  /** The low `width` bytes of `n`, most significant first. */
  function BigEndian(n: nat, width: nat): (s: Bytes)
    ensures |s| == width
  {
    if width == 0 then [] else BigEndian(n / 256, width - 1) + [n % 256]
  }

  function FromBigEndian(s: Bytes): nat {
    if s == [] then 0 else 256 * FromBigEndian(s[..|s| - 1]) + s[|s| - 1]
  }

  lemma {:induction false} BigEndianRoundTrip(n: nat, width: nat)
    requires n < Pow256(width)
    ensures FromBigEndian(BigEndian(n, width)) == n
  {
    if width > 0 {
      BigEndianRoundTrip(n / 256, width - 1);
      assert BigEndian(n, width)[..width - 1] == BigEndian(n / 256, width - 1);
    }
  }

  lemma Pow256Is()
    ensures Pow256(4) == 0x1_0000_0000
    ensures Pow256(8) == 0x1_0000_0000_0000_0000
  {
    assert Pow256(2) == 0x1_0000;
    assert Pow256(4) == 0x1_0000_0000;
    assert Pow256(6) == 0x1_0000_0000_0000;
  }

  // ---- Frames ----

  function FlagsFor(size: nat, extra: Byte): Byte {
    if size > 255 && !Has(extra, FLAG_LONG) then (extra + FLAG_LONG) % 256 else extra
  }

  function FrameBytes(body: Bytes, extra: Byte): (s: Bytes)
    ensures |s| >= 2
  {
    [FlagsFor(|body|, extra)] + (if |body| > 255 then BigEndian(|body|, 8) else [|body|]) + body
  }

  function TakeBody(command: bool, size: nat, rest: Bytes): Read<Frame> {
    if size > MAX_FRAME_BYTES then Protocol
    else if |rest| < size then Eof
    else Got(Frame(command, rest[..size]), rest[size..])
  }

  /** Reads one frame, whose two header bytes have been read already. */
  function ParseBody(flags: Byte, first: Byte, rest: Bytes): (r: Read<Frame>)
    ensures r.Got? ==> |r.rest| <= |rest|
  {
    if Has(flags, FLAG_LONG) then
      if |rest| < 7 then Eof
      else TakeBody(Has(flags, FLAG_COMMAND), FromBigEndian([first] + rest[..7]), rest[7..])
    else TakeBody(Has(flags, FLAG_COMMAND), first, rest)
  }

  /** Reads frames until one without MORE, with `frames` read so far. */
  function ParseFrames(s: Bytes, frames: seq<Frame>): (r: Read<seq<Frame>>)
    ensures r.Got? ==> |r.rest| < |s|
    decreases |s|
  {
    if |s| < 2 then Eof
    else
      match ParseBody(s[0], s[1], s[2..])
      case Got(f, rest) =>
        if !Has(s[0], FLAG_MORE) then Got(frames + [f], rest)
        else if |frames| + 1 > 64 then Protocol
        else ParseFrames(rest, frames + [f])
      case Eof => Eof
      case Protocol => Protocol
  }

  function ParseMessage(s: Bytes): (r: Read<seq<Frame>>)
    ensures r.Got? ==> |r.rest| < |s|
  {
    ParseFrames(s, [])
  }

  function FlagsOf(f: Frame, more: bool): Byte {
    (if more then FLAG_MORE else 0) + (if f.command then FLAG_COMMAND else 0)
  }

  /** A multipart message on the wire: every frame but the last says MORE. */
  function MessageBytes(fs: seq<Frame>): Bytes {
    if fs == [] then [] else FrameBytes(fs[0].body, FlagsOf(fs[0], |fs| > 1)) + MessageBytes(fs[1..])
  }

  /** A length a Vec can have. */
  ghost predicate Addressable(fs: seq<Frame>) {
    forall f :: f in fs ==> |f.body| < 0x1_0000_0000_0000_0000
  }

  ghost predicate WithinCaps(fs: seq<Frame>) {
    |fs| <= 65 && forall f :: f in fs ==> |f.body| <= 16777216
  }

  lemma FromBigEndianStep(s: Bytes, n: nat)
    requires n < |s|
    ensures FromBigEndian(s[..n + 1]) == 256 * FromBigEndian(s[..n]) + s[n]
  {
    assert s[..n + 1][..n] == s[..n];
  }

  lemma FourBytes(s: Bytes)
    requires |s| >= 4
    ensures FromBigEndian(s[..4]) == 256 * (256 * (256 * (s[0] as int) + s[1]) + s[2]) + s[3]
  {
    hide FromBigEndian;
    FromBigEndianStep(s, 0);
    FromBigEndianStep(s, 1);
    FromBigEndianStep(s, 2);
    FromBigEndianStep(s, 3);
    assert FromBigEndian(s[..0]) == 0 by { NoBytes(s); }
  }

  lemma NoBytes(s: Bytes)
    ensures FromBigEndian(s[..0]) == 0
  {}

  lemma EightBytes(s: Bytes)
    requires |s| == 8
    ensures FromBigEndian(s) ==
            256 * (256 * (256 * (256 * (256 * (256 * (256 * (s[0] as int) + s[1]) + s[2]) + s[3]) + s[4]) + s[5]) + s[6]) + s[7]
  {
    hide FromBigEndian;
    FourBytes(s);
    FromBigEndianStep(s, 4);
    FromBigEndianStep(s, 5);
    FromBigEndianStep(s, 6);
    FromBigEndianStep(s, 7);
    assert s[..8] == s;
  }

  /** The layout of a frame (section "Framing" of ZeroMQ RFC 23): a flags byte whose bits are MORE 1, LONG 2 and COMMAND 4;
      the body's length, in one byte up to 255 and in eight, most significant first, beyond; the body. */
  lemma FrameLayout(f: Frame, more: bool)
    requires |f.body| < 0x1_0000_0000_0000_0000
    ensures var s, flags := FrameBytes(f.body, FlagsOf(f, more)), (if more then 1 else 0) + if f.command then 4 else 0;
      if |f.body| <= 255 then s == [flags, |f.body|] + f.body
      else
        && |s| == 9 + |f.body| && s[0] == flags + 2 && s[9..] == f.body
        && 256 * (256 * (256 * (256 * (256 * (256 * (256 * (s[1] as int) + s[2]) + s[3]) + s[4]) + s[5]) + s[6]) + s[7]) + s[8] == |f.body|
  {
    if |f.body| > 255 {
      var size := BigEndian(|f.body|, 8);
      Pow256Is();
      BigEndianRoundTrip(|f.body|, 8);
      EightBytes(size);
      hide BigEndian, FromBigEndian;
      var s := FrameBytes(f.body, FlagsOf(f, more));
      assert s == [s[0]] + size + f.body;
      assert forall i :: 0 <= i < 8 ==> s[i + 1] == size[i];
    }
  }

  lemma FlagsRead(f: Frame, more: bool, size: nat)
    ensures var b := FlagsFor(size, FlagsOf(f, more));
      && Has(b, FLAG_MORE) == more
      && Has(b, FLAG_COMMAND) == f.command
      && Has(b, FLAG_LONG) == (size > 255)
  {}

  lemma ShortHeaderRead(body: Bytes, extra: Byte, rest: Bytes)
    requires !Has(extra, FLAG_LONG) && |body| <= 255
    ensures var s := FrameBytes(body, extra) + rest;
      s[0] == FlagsFor(|body|, extra) && s[1] == |body| && s[2..] == body + rest
  {}

  lemma LongHeaderRead(body: Bytes, extra: Byte, rest: Bytes)
    requires !Has(extra, FLAG_LONG) && 255 < |body| < 0x1_0000_0000_0000_0000
    ensures var s := FrameBytes(body, extra) + rest;
      && s[0] == FlagsFor(|body|, extra)
      && |s[2..]| >= 7
      && FromBigEndian([s[1]] + s[2..][..7]) == |body|
      && s[2..][7..] == body + rest
  {
    hide BigEndian, FromBigEndian;
    var size := BigEndian(|body|, 8);
    var s := FrameBytes(body, extra) + rest;
    assert s == [FlagsFor(|body|, extra)] + (size + (body + rest));
    assert s[1] == size[0];
    assert s[2..] == size[1..] + (body + rest);
    assert s[2..][..7] == size[1..];
    assert [size[0]] + size[1..] == size;
    Pow256Is();
    BigEndianRoundTrip(|body|, 8);
  }

  /** A frame's own header tells the reader where its body is. */
  lemma HeaderRead(body: Bytes, extra: Byte, rest: Bytes)
    requires !Has(extra, FLAG_LONG) && |body| < 0x1_0000_0000_0000_0000
    requires Has(FlagsFor(|body|, extra), FLAG_LONG) == (|body| > 255)
    ensures var s := FrameBytes(body, extra) + rest; var flags := FlagsFor(|body|, extra);
      && s[0] == flags
      && ParseBody(s[0], s[1], s[2..]) == TakeBody(Has(flags, FLAG_COMMAND), |body|, body + rest)
  {
    hide FrameBytes, FlagsFor, FromBigEndian, TakeBody;
    if |body| > 255 {
      LongHeaderRead(body, extra, rest);
    } else {
      ShortHeaderRead(body, extra, rest);
    }
  }

  lemma FrameRead(f: Frame, more: bool, rest: Bytes)
    requires |f.body| < 0x1_0000_0000_0000_0000
    ensures var s := FrameBytes(f.body, FlagsOf(f, more)) + rest;
      && Has(s[0], FLAG_MORE) == more
      && ParseBody(s[0], s[1], s[2..]) == if |f.body| > MAX_FRAME_BYTES then Protocol else Got(f, rest)
  {
    hide FrameBytes, ParseBody;
    FlagsRead(f, more, |f.body|);
    FlagsRead(f, more, 0);
    HeaderRead(f.body, FlagsOf(f, more), rest);
    assert (f.body + rest)[..|f.body|] == f.body && (f.body + rest)[|f.body|..] == rest;
  }

  /** Reading back a message on a stream: it comes out whole within the reader's caps, and is refused beyond them. */
  lemma {:induction false} FramesRead(fs: seq<Frame>, before: seq<Frame>, rest: Bytes)
    requires fs != [] && Addressable(fs) && |before| < MAX_FRAMES
    ensures ParseFrames(MessageBytes(fs) + rest, before)
         == if |before| + |fs| <= MAX_FRAMES && WithinCaps(fs) then Got(before + fs, rest) else Protocol
    decreases |fs|
  {
    hide FrameBytes, ParseBody;
    var f, tail := fs[0], MessageBytes(fs[1..]) + rest;
    var s := FrameBytes(f.body, FlagsOf(f, |fs| > 1)) + tail;
    assert MessageBytes(fs) + rest == s;
    FrameRead(f, |fs| > 1, tail);
    if |fs| == 1 {
      assert fs == [f] && tail == rest;
    } else if |f.body| <= MAX_FRAME_BYTES && |before| + 1 < MAX_FRAMES {
      FramesRead(fs[1..], before + [f], rest);
      assert before + [f] + fs[1..] == before + fs;
      assert fs == [f] + fs[1..];
    }
  }

  /** Main: one message read off a stream is the message written, and the stream continues after it, exactly within the caps. */
  lemma MessageRoundTrip(fs: seq<Frame>, rest: Bytes)
    requires fs != [] && Addressable(fs)
    ensures ParseMessage(MessageBytes(fs) + rest) == Got(fs, rest) <==> WithinCaps(fs)
    ensures !WithinCaps(fs) ==> ParseMessage(MessageBytes(fs) + rest) == Protocol
  {
    FramesRead(fs, [], rest);
    assert [] + fs == fs;
  }

  /** Main: two messages written back to back are read as those two, and the bytes after them are left alone. */
  lemma StreamRoundTrip(m1: seq<Frame>, m2: seq<Frame>, rest: Bytes)
    requires m1 != [] && m2 != [] && WithinCaps(m1) && WithinCaps(m2)
    ensures var r1 := ParseMessage(MessageBytes(m1) + MessageBytes(m2) + rest);
            r1.Got? && r1.value == m1 && ParseMessage(r1.rest) == Got(m2, rest)
  {
    hide MessageBytes, ParseMessage;
    assert MessageBytes(m1) + MessageBytes(m2) + rest == MessageBytes(m1) + (MessageBytes(m2) + rest);
    MessageRoundTrip(m1, MessageBytes(m2) + rest);
    MessageRoundTrip(m2, rest);
  }

  // ---- Cut short ----

  lemma FrameCutShort(body: Bytes, extra: Byte, t: Bytes)
    requires !Has(extra, FLAG_LONG) && |body| <= MAX_FRAME_BYTES
    requires Has(FlagsFor(|body|, extra), FLAG_LONG) == (|body| > 255)
    requires 2 <= |t| < |FrameBytes(body, extra)| && t <= FrameBytes(body, extra)
    ensures ParseBody(t[0], t[1], t[2..]) == Eof
  {
    hide FromBigEndian, FlagsFor;
    var s := FrameBytes(body, extra);
    assert t[0] == s[0] && t[1] == s[1];
    if |body| > 255 && |t| >= 9 {
      LongHeaderRead(body, extra, []);
      assert s + [] == s;
      assert t[2..][..7] == s[2..][..7];
    }
  }

  /** A message cut anywhere leaves the reader waiting for more, never misreading. */
  lemma {:induction false} CutShort(fs: seq<Frame>, before: seq<Frame>, t: Bytes)
    requires fs != [] && WithinCaps(fs) && |before| + |fs| <= MAX_FRAMES
    requires t <= MessageBytes(fs) && |t| < |MessageBytes(fs)|
    ensures ParseFrames(t, before) == Eof
    decreases |fs|
  {
    hide FrameBytes, ParseBody;
    var f := fs[0];
    var extra := FlagsOf(f, |fs| > 1);
    var head := FrameBytes(f.body, extra);
    FlagsRead(f, |fs| > 1, |f.body|);
    FlagsRead(f, |fs| > 1, 0);
    if |t| < 2 {
    } else if |t| < |head| {
      assert t == MessageBytes(fs)[..|t|] == head[..|t|];
      FrameCutShort(f.body, extra, t);
    } else {
      var tail := t[|head|..];
      assert t[..|head|] == MessageBytes(fs)[..|head|] == head;
      assert t == head + tail;
      FrameRead(f, |fs| > 1, tail);
      assert tail <= MessageBytes(fs[1..]) by {
        assert t == MessageBytes(fs)[..|t|];
        assert tail == MessageBytes(fs[1..])[..|tail|];
      }
      if |fs| > 1 {
        assert forall g :: g in fs[1..] ==> g in fs;
        CutShort(fs[1..], before + [f], tail);
      }
    }
  }

  // ---- Commands and metadata ----

  function CommandBody(name: Bytes, properties: Bytes): Bytes {
    [|name| % 256] + name + properties
  }

  function SplitCommand(body: Bytes): Result<(Bytes, Bytes)> {
    if body == [] then Err
    else
      var len: nat := body[0];
      if |body| < 1 + len then Err else Ok((body[1..1 + len], body[1 + len..]))
  }

  /** A command is split into the name and properties it was made of exactly when one byte can hold the name's length. */
  lemma CommandRoundTrip(name: Bytes, properties: Bytes)
    ensures SplitCommand(CommandBody(name, properties)) == Ok((name, properties)) <==> |name| <= 255
  {
    var body := CommandBody(name, properties);
    if |name| <= 255 {
      assert body[1..1 + |name|] == name && body[1 + |name|..] == properties;
    } else if SplitCommand(body).Ok? {
      assert |SplitCommand(body).value.0| == |name| % 256;
    }
  }

  /** What is split off a command's body is what the body was made of; it can be split when the name fits in it. */
  lemma SplitRejoins(body: Bytes)
    ensures SplitCommand(body).Ok? <==> body != [] && 1 + body[0] <= |body|
    ensures SplitCommand(body).Ok? ==>
      var (name, properties) := SplitCommand(body).value; |name| == body[0] && body == [body[0]] + name + properties
  {}

  datatype Property = Property(key: Bytes, value: Bytes)

  function PropertyBytes(p: Property): Bytes {
    [|p.key| % 256] + p.key + BigEndian(|p.value|, 4) + p.value
  }

  function PropertiesBytes(ps: seq<Property>): Bytes {
    if ps == [] then [] else PropertyBytes(ps[0]) + PropertiesBytes(ps[1..])
  }

  function LowerByte(b: Byte): Byte {
    if 65 <= b <= 90 then b + 32 else b
  }

  function Lower(s: Bytes): Bytes {
    seq(|s|, i requires 0 <= i < |s| => LowerByte(s[i]))
  }

  /** The value of the first property whose key is `want` in any case; None also for truncated metadata. */
  function Lookup(raw: Bytes, want: Bytes): Option<Bytes>
    decreases |raw|
  {
    if raw == [] then None
    else
      var klen: nat := raw[0];
      if |raw| < 1 + klen + 4 then None
      else
        var vlen := FromBigEndian(raw[1 + klen..5 + klen]);
        if |raw| < 5 + klen + vlen then None
        else if Lower(raw[1..1 + klen]) == want then Some(raw[5 + klen..5 + klen + vlen])
        else Lookup(raw[5 + klen + vlen..], want)
  }

  /** `want` is the key with its capital letters made small. */
  predicate Names(key: Bytes, want: Bytes) {
    && |key| == |want|
    && forall i :: 0 <= i < |key| ==> want[i] == if 65 <= key[i] && key[i] <= 90 then key[i] + 32 else key[i]
  }

  lemma LowerNames(key: Bytes, want: Bytes)
    ensures Lower(key) == want <==> Names(key, want)
  {
    if Lower(key) == want {
      assert forall i :: 0 <= i < |key| ==> want[i] == Lower(key)[i];
    }
  }

  /** The first value whose key names what is wanted. */
  function FirstValue(ps: seq<Property>, want: Bytes): Option<Bytes> {
    if ps == [] then None
    else if Names(ps[0].key, want) then Some(ps[0].value)
    else FirstValue(ps[1..], want)
  }

  /** A property as it is laid out (section "Metadata" of ZeroMQ RFC 23): the key after its length in one byte, the value
      after its length in four, most significant first. */
  lemma PropertyLayout(p: Property)
    requires |p.key| <= 255 && |p.value| < 0x1_0000_0000
    ensures var s, k := PropertyBytes(p), 1 + |p.key|;
      && |s| == k + 4 + |p.value| && s[0] == |p.key| && s[1..k] == p.key && s[k + 4..] == p.value
      && 256 * (256 * (256 * (s[k] as int) + s[k + 1]) + s[k + 2]) + s[k + 3] == |p.value|
  {
    var size := BigEndian(|p.value|, 4);
    Pow256Is();
    BigEndianRoundTrip(|p.value|, 4);
    FourBytes(size);
    hide BigEndian, FromBigEndian;
    assert size[..4] == size;
    var s, k := PropertyBytes(p), 1 + |p.key|;
    assert s == [|p.key|] + p.key + size + p.value;
    assert s[k] == size[0] && s[k + 1] == size[1] && s[k + 2] == size[2] && s[k + 3] == size[3];
  }

  lemma PropertyLaidOut(p: Property, rest: Bytes)
    requires |p.key| <= 255 && |p.value| < 0x1_0000_0000
    ensures var raw := PropertyBytes(p) + rest; var klen, vlen := |p.key|, |p.value|;
      && |raw| >= 5 + klen + vlen
      && raw[0] == klen
      && raw[1..1 + klen] == p.key
      && FromBigEndian(raw[1 + klen..5 + klen]) == vlen
      && raw[5 + klen..5 + klen + vlen] == p.value
      && raw[5 + klen + vlen..] == rest
  {
    hide BigEndian, FromBigEndian;
    var raw := PropertyBytes(p) + rest;
    Pow256Is();
    BigEndianRoundTrip(|p.value|, 4);
    assert raw[1 + |p.key|..5 + |p.key|] == BigEndian(|p.value|, 4);
  }

  /** A property cut short is none. */
  lemma CutProperty(p: Property, t: Bytes, want: Bytes)
    requires |p.key| <= 255 && |p.value| < 0x1_0000_0000 && t <= PropertyBytes(p) && |t| < |PropertyBytes(p)|
    ensures Lookup(t, want) == None
  {
    PropertyLaidOut(p, []);
    hide PropertyBytes, FromBigEndian, Lower;
    var s, klen := PropertyBytes(p), |p.key|;
    assert s + [] == s;
    if t != [] {
      assert t[0] == s[0];
      if |t| >= 5 + klen {
        assert t[1 + klen..5 + klen] == s[1 + klen..5 + klen];
      }
    }
  }

  /** Main: metadata is looked up, whatever the case of its keys, as the list it was written from; a property cut short at
      the end counts for nothing. */
  lemma {:induction false} PropertiesRoundTrip(ps: seq<Property>, p: Property, t: Bytes, want: Bytes)
    requires forall q :: q in ps + [p] ==> |q.key| <= 255 && |q.value| < 0x1_0000_0000
    requires t <= PropertyBytes(p) && |t| < |PropertyBytes(p)|
    ensures Lookup(PropertiesBytes(ps) + t, want) == FirstValue(ps, want)
  {
    hide PropertyBytes, Lookup, Names;
    if ps == [] {
      assert p in ps + [p];
      CutProperty(p, t, want);
      assert PropertiesBytes(ps) + t == t;
    } else {
      assert ps + [p] == [ps[0]] + (ps[1..] + [p]);
      LookupFirst(ps[0], PropertiesBytes(ps[1..]) + t, want);
      PropertiesRoundTrip(ps[1..], p, t, want);
      assert PropertiesBytes(ps) + t == PropertyBytes(ps[0]) + (PropertiesBytes(ps[1..]) + t);
    }
  }

  lemma LookupFirst(p: Property, rest: Bytes, want: Bytes)
    requires |p.key| <= 255 && |p.value| < 0x1_0000_0000
    ensures Lookup(PropertyBytes(p) + rest, want) == if Names(p.key, want) then Some(p.value) else Lookup(rest, want)
  {
    hide PropertyBytes, FromBigEndian, Lower, Names;
    PropertyLaidOut(p, rest);
    LowerNames(p.key, want);
  }

  // ---- The encoders and readers themselves ----

  class Buffer {
    var bytes: Bytes

    method EncodeFrame(body: Bytes, extra: Byte)
      modifies this
      ensures bytes == old(bytes) + FrameBytes(body, extra)
    {
      var long := |body| > 255;
      var flags := FlagsFor(|body|, extra);
      bytes := bytes + [flags];
      if long {
        bytes := bytes + BigEndian(|body|, 8);
      } else {
        bytes := bytes + [|body|];
      }
      bytes := bytes + body;
    }

    method EncodeCommand(name: Bytes, properties: Bytes)
      modifies this
      ensures bytes == old(bytes) + FrameBytes(CommandBody(name, properties), FLAG_COMMAND)
    {
      var body: Bytes := [|name| % 256];
      body := body + name;
      body := body + properties;
      EncodeFrame(body, FLAG_COMMAND);
    }

    method EncodeProperty(p: Property)
      modifies this
      ensures bytes == old(bytes) + PropertyBytes(p)
    {
      bytes := bytes + [|p.key| % 256];
      bytes := bytes + p.key;
      bytes := bytes + BigEndian(|p.value|, 4);
      bytes := bytes + p.value;
    }
  }

  /** A byte stream being read. After a failed read nothing more is promised about it. */
  class Source {
    var rest: Bytes

    method ReadExact(n: nat) returns (r: Option<Bytes>)
      modifies this
      ensures r.Some? <==> n <= |old(rest)|
      ensures r.Some? ==> r.value == old(rest)[..n] && rest == old(rest)[n..]
    {
      if n <= |rest| {
        r := Some(rest[..n]);
        rest := rest[n..];
      } else {
        r, rest := None, [];
      }
    }

    method ReadFrameBody(flags: Byte, first: Byte) returns (r: Read<Frame>)
      modifies this
      ensures r == ParseBody(flags, first, old(rest))
      ensures r.Got? ==> r.rest == rest
    {
      var size: nat := first;
      if Has(flags, FLAG_LONG) {
        var more := ReadExact(7);
        if more.None? {
          return Eof;
        }
        size := FromBigEndian([first] + more.value);
      }
      if size > MAX_FRAME_BYTES {
        return Protocol;
      }
      var body := ReadExact(size);
      if body.None? {
        return Eof;
      }
      return Got(Frame(Has(flags, FLAG_COMMAND), body.value), rest);
    }

    method ReadMessage() returns (r: Read<seq<Frame>>)
      modifies this
      ensures r == ParseMessage(old(rest))
      ensures r.Got? ==> r.rest == rest
    {
      var frames: seq<Frame> := [];
      while true
        invariant ParseMessage(old(rest)) == ParseFrames(rest, frames)
        decreases |rest|
      {
        ghost var s := rest;
        var header := ReadExact(2);
        if header.None? {
          return Eof;
        }
        var f := ReadFrameBody(header.value[0], header.value[1]);
        match f {
          case Eof => return Eof;
          case Protocol => return Protocol;
          case Got(frame, _) =>
            frames := frames + [frame];
        }
        if !Has(header.value[0], FLAG_MORE) {
          return Got(frames, rest);
        }
        if |frames| > 64 {
          return Protocol;
        }
      }
    }
  }

  /** The metadata lookup as the handshake does it, walking the raw bytes. */
  method FindProperty(raw: Bytes, want: Bytes) returns (r: Option<Bytes>)
    ensures r == Lookup(raw, want)
  {
    var left := raw;
    while left != []
      invariant Lookup(raw, want) == Lookup(left, want)
      decreases |left|
    {
      var klen: nat := left[0];
      if |left| < 1 + klen + 4 {
        return None;
      }
      var key := left[1..1 + klen];
      var vlen := FromBigEndian(left[1 + klen..5 + klen]);
      if |left| < 5 + klen + vlen {
        return None;
      }
      if Lower(key) == want {
        return Some(left[5 + klen..5 + klen + vlen]);
      }
      left := left[5 + klen + vlen..];
    }
    return None;
  }
}
