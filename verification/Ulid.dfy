/**
 The three ULID encoders: the Go one peels the timestamp and shifts entropy through a 64-bit
 accumulator, the Rust one indexes by shifts, the Python one peels a single big integer. Shifts
 and masks are written as division and remainder by powers of two (Encoding and Sorting sections
 of the ULID specification).
 */
module Ulid {
  import opened Lexical
  import opened Options

  const CROCKFORD := "0123456789ABCDEFGHJKMNPQRSTVWXYZ"

  const TWO_48 := 0x1_0000_0000_0000
  const TWO_50 := 0x4_0000_0000_0000
  const TWO_64 := 0x1_0000_0000_0000_0000
  const TWO_80 := 0x1_0000_0000_0000_0000_0000

  type Byte = b: int | 0 <= b < 256

  function Char(digit: nat): char
    requires digit < 32
  {
    CROCKFORD[digit]
  }

  /** The `w` low base-32 digits of `n`, most significant first. */
  function Base32(n: nat, w: nat): (s: string)
    ensures |s| == w
  {
    if w == 0 then [] else Base32(n / 32, w - 1) + [Char(n % 32)]
  }

  function Pow2(k: nat): (p: nat)
    ensures p > 0
  {
    if k == 0 then 1 else 2 * Pow2(k - 1)
  }

  function BytesValue(s: seq<Byte>): nat {
    if s == [] then 0 else 256 * BytesValue(s[..|s| - 1]) + s[|s| - 1]
  }

  // ---- Powers, shifts and remainders ----

  lemma {:induction false} Pow2Sum(a: nat, b: nat)
    ensures Pow2(a + b) == Pow2(a) * Pow2(b)
  {
    if b > 0 {
      Pow2Sum(a, b - 1);
      assert Pow2(a + b) == 2 * Pow2(a + b - 1);
    }
  }

  function Pow32(w: nat): (p: nat)
    ensures p > 0
  {
    if w == 0 then 1 else 32 * Pow32(w - 1)
  }

  lemma {:induction false} Pow32Is(w: nat)
    ensures Pow32(w) == Pow2(5 * w)
  {
    if w > 0 {
      Pow32Is(w - 1);
      Pow2Sum(5 * w - 5, 5);
      assert Pow2(5) == 32;
    }
  }

  lemma Sixteen()
    ensures Pow2(2) == 4 && Pow2(4) == 16
  {
    assert Pow2(1) == 2;
  }

  lemma Square(k: nat, v: nat)
    requires Pow2(k) == v
    ensures Pow2(k + k) == v * v
  {
    Pow2Sum(k, k);
  }

  lemma PowersAre()
    ensures Pow2(64) == TWO_64 && Pow2(80) == TWO_80 && Pow32(10) == TWO_50 && Pow32(16) == TWO_80
  {
    hide Pow2, Pow32;
    Sixteen();
    Square(4, 0x10);
    Square(8, 0x100);
    Square(16, 0x1_0000);
    Square(32, 0x1_0000_0000);
    Pow2Sum(64, 16);
    Pow2Sum(32, 16);
    Pow2Sum(48, 2);
    Pow32Is(10);
    Pow32Is(16);
  }

  lemma AtLeastOne(e: int, d: int)
    requires d > 0
    ensures e >= 1 ==> e * d >= d
    ensures e <= -1 ==> e * d <= -d
  {}

  lemma Quotient(x: nat, d: nat)
    requires d > 0
    ensures 0 <= x / d
  {}

  lemma DivideUnique(x: int, d: int, q: int, r: int)
    requires d > 0 && 0 <= r < d && x == q * d + r
    ensures x / d == q && x % d == r
  {
    AtLeastOne(x / d - q, d);
    assert (x / d - q) * d == r - x % d;
  }

  lemma DivideTwice(x: nat, a: nat, b: nat)
    requires a > 0 && b > 0
    ensures a * b > 0 && x / (a * b) == x / a / b
  {
    var q, r, s := x / a / b, x / a % b, x % a;
    assert x == (q * b + r) * a + s;
    assert (q * b + r) * a + s == q * (a * b) + (r * a + s);
    assert r * a + s < a * b by {
      assert r * a <= (b - 1) * a;
    }
    assert 0 <= r * a by { assert 0 <= r && 0 < a; }
    DivideUnique(x, a * b, q, r * a + s);
  }

  /** `x >> k`. */
  function Shift(x: nat, k: nat): nat {
    Quotient(x, Pow2(k));
    x / Pow2(k)
  }

  /** What a 64-bit register keeps. */
  function Low64(x: nat): nat {
    x % TWO_64
  }

  lemma ShiftFive(x: nat, k: nat)
    ensures Shift(x, k) / 32 == Shift(x, k + 5)
  {
    DivideTwice(x, Pow2(k), 32);
    Pow2Sum(k, 5);
    assert Pow2(5) == 32;
  }

  lemma ShiftEight(x: nat, b: nat, k: nat)
    requires b < 256
    ensures Shift(256 * x + b, k + 8) == Shift(x, k)
  {
    DivideTwice(256 * x + b, 256, Pow2(k));
    Pow2Sum(8, k);
    assert Pow2(8) == 256;
  }

  lemma LowDigit(x: nat, p: nat, m: nat)
    requires p > 0 && m > 0 && p * 32 * m > 0
    ensures x % (p * 32 * m) / p % 32 == x / p % 32
  {
    var q, r := x / (p * 32 * m), x % (p * 32 * m);
    var e, f := r / p, r % p;
    Regroup(q, p, m);
    Gather(32 * (q * m), e, p, f);
    NonNegative(q, m);
    DivideUnique(x, p, 32 * (q * m) + e, f);
    ThirtyTwos(q * m, e);
  }

  lemma ThirtyTwos(k: int, e: int)
    ensures (32 * k + e) % 32 == e % 32
  {}

  /** Bits above the ones read do not matter. */
  lemma LowBits(x: nat, k: nat)
    requires k + 5 <= 64
    ensures Shift(Low64(x), k) % 32 == Shift(x, k) % 32
  {
    Pow2Sum(k, 5);
    Pow2Sum(k + 5, 59 - k);
    assert Pow2(5) == 32;
    PowersAre();
    hide Pow2;
    LowDigit(x, Pow2(k), Pow2(59 - k));
  }

  lemma Regroup(q: int, p: int, m: int)
    ensures q * (p * 32 * m) == (32 * (q * m)) * p
  {
    assert p * 32 * m == 32 * (p * m);
    assert q * (p * m) == (q * m) * p;
  }

  lemma Gather(a: int, e: int, p: int, f: int)
    ensures a * p + (e * p + f) == (a + e) * p + f
  {}

  lemma NonNegative(x: int, y: int)
    requires x >= 0 && y >= 0
    ensures x * y >= 0
  {}

  // ---- The three encoders ----

  /** The 80 bits an encoder ends up with: the first ten bytes, zero-filled on the right. */
  function Entropy(bytes: seq<Byte>): (e: seq<Byte>)
    ensures |e| == 10
  {
    if |bytes| >= 10 then bytes[..10] else bytes + seq(10 - |bytes|, _ => 0)
  }

  lemma EntropyIs(bytes: seq<Byte>, i: nat)
    requires i < 10
    ensures Entropy(bytes)[i] == if i < |bytes| then bytes[i] else 0
  {}

  /** Go: the timestamp as an unsigned 64-bit number, peeled from the last digit into the buffer. */
  method GoTimestamp(id: array<char>, unixMilli: int)
    requires id.Length == 26
    modifies id
    ensures id[..10] == Base32(GoMs(unixMilli), 10) && id[10..] == old(id[10..])
  {
    hide Pow2, Char;
    var ms: nat, i := unixMilli % TWO_64, 10;
    while i > 0
      invariant 0 <= i <= 10
      invariant Base32(GoMs(unixMilli), 10) == Base32(ms, i) + id[i..10]
      invariant id[10..] == old(id[10..])
    {
      i := i - 1;
      ghost var written := id[i + 1..10];
      id[i] := Char(ms % 32);
      assert id[i..10] == [Char(ms % 32)] + written;
      ms := ms / 32;
    }
    assert id[0..10] == id[..10];
  }

  /** Go: the entropy, through an accumulator that wraps at 64 bits and is never cleared; zeros when there is none. */
  method GoEntropy(id: array<char>, entropy: Option<seq<Byte>>) returns (left: nat)
    requires id.Length == 26 && (entropy.Some? ==> |entropy.value| == 10)
    modifies id
    ensures id[..10] == old(id[..10]) && left == 0
    ensures id[10..] == Base32(if entropy.Some? then BytesValue(entropy.value) else 0, 16)
  {
    hide Shift, Low64, Base32, BytesValue, Char;
    if entropy.None? {
      for i := 10 to 26
        invariant id[..10] == old(id[..10]) && forall k :: 10 <= k < i ==> id[k] == '0'
      {
        id[i] := '0';
      }
      ZeroDigits(16);
      return 0;
    }
    var e := entropy.value;
    var acc: nat, bits: nat, pos: nat := 0, 0, 10;
    ghost var total: nat := 0;
    Nothing(e);
    for i := 0 to 10
      invariant total == BytesValue(e[..i]) && acc == Low64(total)
      invariant 10 <= pos <= 26 && bits + 5 * (pos - 10) == 8 * i && bits < 5
      invariant id[10..pos] == Base32(Shift(total, bits), pos - 10)
      invariant id[..10] == old(id[..10])
    {
      NextByte(e, i);
      ShiftEight(total, e[i], bits);
      WrapStep(total, e[i]);
      acc := Low64(acc * 256 + e[i]);
      total := 256 * total + e[i];
      bits, pos := Emit(id, acc, bits + 8, pos, total);
    }
    assert e[..10] == e;
    left := bits;
    NoShift(total);
  }

  /** The inner loop: digits while five bits are at hand and there is room. */
  method Emit(id: array<char>, acc: nat, bits0: nat, pos0: nat, ghost total: nat) returns (bits: nat, pos: nat)
    requires id.Length == 26 && 10 <= pos0 <= 26 && bits0 <= 12
    requires acc == Low64(total) && id[10..pos0] == Base32(Shift(total, bits0), pos0 - 10)
    modifies id
    ensures 10 <= pos <= 26 && bits + 5 * pos == bits0 + 5 * pos0 && (bits < 5 || pos == 26)
    ensures id[10..pos] == Base32(Shift(total, bits), pos - 10) && id[..10] == old(id[..10])
  {
    hide Shift, Low64, Base32, Char;
    bits, pos := bits0, pos0;
    while bits >= 5 && pos < 26
      invariant 10 <= pos <= 26 && bits + 5 * pos == bits0 + 5 * pos0 && bits <= 12
      invariant id[10..pos] == Base32(Shift(total, bits), pos - 10) && id[..10] == old(id[..10])
    {
      bits := bits - 5;
      LowBits(total, bits);
      ShiftFive(total, bits);
      NextDigit(Shift(total, bits), pos - 10);
      ghost var written := id[10..pos];
      id[pos] := Char(Shift(acc, bits) % 32);
      pos := pos + 1;
      assert id[10..pos] == written + [Char(Shift(acc, bits) % 32)];
    }
  }

  method GoUlid(unixMilli: int, entropy: Option<seq<Byte>>) returns (id: array<char>)
    requires entropy.Some? ==> |entropy.value| == 10
    ensures fresh(id)
    ensures id[..] == UlidOf(GoMs(unixMilli), if entropy.Some? then BytesValue(entropy.value) else 0)
  {
    hide Base32, BytesValue;
    id := new char[26](_ => '\0');
    GoTimestamp(id, unixMilli);
    var left := GoEntropy(id, entropy);
    assert id[..] == id[..10] + id[10..];
  }

  lemma Nothing(e: seq<Byte>)
    ensures BytesValue(e[..0]) == 0 && Low64(0) == 0 && Base32(Shift(0, 0), 0) == []
  {}

  lemma NextByte(e: seq<Byte>, i: nat)
    requires i < |e|
    ensures BytesValue(e[..i + 1]) == 256 * BytesValue(e[..i]) + e[i]
  {
    assert e[..i + 1][..i] == e[..i];
  }

  lemma NextDigit(n: nat, w: nat)
    ensures Base32(n, w + 1) == Base32(n / 32, w) + [Char(n % 32)]
  {}

  lemma NoShift(x: nat)
    ensures Shift(x, 0) == x
  {}

  lemma WrapStep(total: nat, b: nat)
    requires b < 256
    ensures Low64(Low64(total) * 256 + b) == Low64(256 * total + b)
  {
    var m := TWO_64;
    var q, r := total / m, total % m;
    var q2, r2 := (r * 256 + b) / m, (r * 256 + b) % m;
    assert 256 * total + b == (256 * q + q2) * m + r2;
    DivideUnique(256 * total + b, m, 256 * q + q2, r2);
  }

  lemma {:induction false} ZeroDigits(w: nat)
    ensures Base32(0, w) == seq(w, _ => '0')
  {
    if w > 0 {
      ZeroDigits(w - 1);
      assert seq(w, _ => '0') == seq(w - 1, _ => '0') + ['0'];
    }
  }

  /** Rust: the time is clamped at the epoch and masked to 48 bits; every digit is read where it lies. */
  method RustMint(epochMs: int, rand: nat) returns (s: string)
    ensures s == UlidOf(RustMs(epochMs), rand)
  {
    hide Pow2, Base32;
    var ms := (if epochMs > 0 then epochMs else 0) % TWO_48;
    var t := IndexedDigits(ms, 10);
    var r := IndexedDigits(rand, 16);
    s := t + r;
  }

  method IndexedDigits(x: nat, w: nat) returns (s: string)
    ensures s == Base32(x, w)
  {
    s := [];
    hide Shift;
    for i := 0 to w
      invariant s == Base32(Shift(x, 5 * (w - i)), i)
    {
      ShiftFive(x, 5 * (w - i - 1));
      s := s + [Char(Shift(x, 5 * (w - i - 1)) % 32)];
    }
    NoShift(x);
  }

  function Reversed(s: string): string {
    if s == [] then [] else [s[|s| - 1]] + Reversed(s[..|s| - 1])
  }

  lemma ReversedSnoc(s: string, c: char)
    ensures Reversed(s + [c]) == [c] + Reversed(s)
  {
    assert (s + [c])[..|s|] == s;
  }

  /** Python: one integer, peeled from the last digit and reversed. */
  method PythonUlid(bytes: seq<Byte>, tsMs: int) returns (s: string)
    ensures s == Base32(Raised(PythonMs(tsMs), 16) + BytesValue(Entropy(bytes)), 26)
  {
    PowersAre();
    hide Pow2, Pow32, BytesValue, Entropy, Char, Reversed;
    var value: nat := PythonMs(tsMs) * TWO_80 + BytesValue(Entropy(bytes));
    var whole, out := value, [];
    NothingReversed();
    for i := 0 to 26
      invariant Base32(whole, 26) == Base32(value, 26 - i) + Reversed(out)
    {
      ReversedSnoc(out, Char(value % 32));
      out := out + [Char(value % 32)];
      value := value / 32;
    }
    s := Reversed(out);
  }

  lemma NothingReversed()
    ensures Reversed([]) == []
  {}

  // ---- They agree ----

  /** `a` with room for `w` digits below it. */
  function Raised(a: nat, w: nat): nat {
    NonNegative(a, Pow32(w));
    a * Pow32(w)
  }

  lemma RaisedStep(a: nat, b: nat, w: nat)
    requires w > 0
    ensures (Raised(a, w) + b) / 32 == Raised(a, w - 1) + b / 32 && (Raised(a, w) + b) % 32 == b % 32
  {
    var x := Raised(a, w - 1);
    assert Raised(a, w) == 32 * x by { assert a * (32 * Pow32(w - 1)) == 32 * (a * Pow32(w - 1)); }
  }

  lemma DropDigit(b: nat, w: nat)
    requires w > 0 && b < Pow32(w)
    ensures b / 32 < Pow32(w - 1)
  {}

  lemma JoinNothing(a: nat, b: nat, v: nat)
    requires b < Pow32(0)
    ensures Base32(Raised(a, 0) + b, v) == Base32(a, v) + Base32(b, 0)
  {
    hide Base32;
    assert Raised(a, 0) + b == a;
    assert Base32(b, 0) == [];
  }

  lemma {:induction false} Base32Join(a: nat, b: nat, v: nat, w: nat)
    requires b < Pow32(w)
    ensures Base32(Raised(a, w) + b, v + w) == Base32(a, v) + Base32(b, w)
  {
    hide Pow32, Raised, Base32, Char;
    if w == 0 {
      JoinNothing(a, b, v);
    } else {
      DropDigit(b, w);
      Base32Join(a, b / 32, v, w - 1);
      RaisedStep(a, b, w);
      NextDigit(Raised(a, w) + b, v + w - 1);
      NextDigit(b, w - 1);
    }
  }

  lemma {:induction false} BytesBounded(s: seq<Byte>)
    ensures BytesValue(s) < Pow2(8 * |s|)
  {
    if s != [] {
      BytesBounded(s[..|s| - 1]);
      Pow2Sum(8 * |s| - 8, 8);
      assert Pow2(8) == 256;
    } else {
      assert Pow2(0) == 1;
    }
  }

  lemma DigitMod(n: nat, p: nat)
    requires p > 0
    ensures var r := n % (32 * p);
            r == 32 * (n / 32 % p) + n % 32 && r / 32 == n / 32 % p && r % 32 == n % 32
  {
    var q, r := n / 32 / p, n / 32 % p;
    assert q * (32 * p) == 32 * (q * p);
    DivideUnique(n, 32 * p, q, 32 * r + n % 32);
  }

  lemma {:induction false} Base32Mod(n: nat, w: nat)
    ensures Base32(n % Pow32(w), w) == Base32(n, w)
  {
    if w > 0 {
      DigitMod(n, Pow32(w - 1));
      Base32Mod(n / 32, w - 1);
    }
  }

  /** The encoding of an instant and 80 bits: one 128-bit number in base 32. */
  function UlidOf(ms: nat, entropy: nat): string {
    Base32(ms, 10) + Base32(entropy, 16)
  }

  /** Main: from the epoch until 2^48 ms, for any entropy, the three encoders give the same 26 characters. */
  lemma EncodersAgree(ms: nat, bytes: seq<Byte>)
    requires ms < TWO_48
    ensures var e := BytesValue(Entropy(bytes));
      && UlidOf(GoMs(ms), e) == UlidOf(ms, e)
      && UlidOf(RustMs(ms), e) == UlidOf(ms, e)
      && Base32(Raised(PythonMs(ms), 16) + e, 26) == UlidOf(ms, e)
  {
    hide Pow2, Pow32, BytesValue, Entropy, Base32, Raised;
    var e := BytesValue(Entropy(bytes));
    BytesBounded(Entropy(bytes));
    PowersAre();
    Base32Join(ms, e, 10, 16);
  }

  /** What the Go and the Rust encoders make of a timestamp. */
  function GoMs(ms: int): nat {
    ms % TWO_64
  }

  function RustMs(ms: int): nat {
    (if ms > 0 then ms else 0) % TWO_48
  }

  function PythonMs(ms: int): nat {
    if ms > 0 then ms else 0
  }

  /** Outside that range they need not agree: before the epoch Go wraps where the others clamp, and past 2^48 Rust masks
      two digits the others keep. Two of them give the same ten characters exactly when their numbers agree to 50 bits. */
  lemma TimestampsAgreeExactly(m: nat, n: nat)
    ensures Base32(m, 10) == Base32(n, 10) <==> m % TWO_50 == n % TWO_50
  {
    hide Pow2, Pow32, Base32, Decoded;
    PowersAre();
    Base32Mod(m, 10);
    Base32Mod(n, 10);
    DecodesBack(m, 10);
    DecodesBack(n, 10);
  }

  lemma ModMod(m: int, d: nat, k: nat)
    requires d > 0 && k > 0 && k * d > 0
    ensures m % (k * d) % d == m % d
  {
    var q, r := m / (k * d), m % (k * d);
    Gather(q * k, r / d, d, r % d);
    assert q * (k * d) == q * k * d;
    SignedUnique(m, d, q * k + r / d, r % d);
  }

  lemma SignedUnique(x: int, d: int, q: int, r: int)
    requires d > 0 && 0 <= r < d && x == q * d + r
    ensures x % d == r
  {
    DivideUnique(x, d, q, r);
  }

  /** Main: where the encoders' time digits agree: Go with Python from the epoch on, and before it only every 2^50 ms; Rust
      with Python before the epoch, and after it while the low 50 bits fit in 48. */
  lemma AgreeExactly(ms: int)
    ensures Base32(GoMs(ms), 10) == Base32(PythonMs(ms), 10) <==> ms >= 0 || ms % TWO_50 == 0
    ensures Base32(RustMs(ms), 10) == Base32(PythonMs(ms), 10) <==> ms < 0 || ms % TWO_50 < TWO_48
  {
    hide Base32;
    TimestampsAgreeExactly(GoMs(ms), PythonMs(ms));
    TimestampsAgreeExactly(RustMs(ms), PythonMs(ms));
    ModMod(ms, TWO_50, 0x4000);
    ModMod(ms, TWO_48, 4);
  }

  // ---- Decoding, and order ----

  function Digit(c: char): Option<nat> {
    if c in CROCKFORD then Some(IndexOf(CROCKFORD, c)) else None
  }

  function IndexOf(s: string, c: char): (i: nat)
    requires c in s
    ensures i < |s| && s[i] == c
  {
    if s[0] == c then 0 else 1 + IndexOf(s[1..], c)
  }

  function Decoded(s: string): Option<nat> {
    if s == [] then Some(0)
    else
      var high, d := Decoded(s[..|s| - 1]), Digit(s[|s| - 1]);
      if high.Some? && d.Some? then Some(32 * high.value + d.value) else None
  }

  /** Neighbouring characters of the alphabet ascend. */
  lemma Neighbours(i: nat)
    requires i < 31
    ensures CROCKFORD[i] < CROCKFORD[i + 1]
  {
    if i < 16 {
      NeighboursLow(i);
    } else {
      NeighboursHigh(i);
    }
  }

  lemma NeighboursLow(i: nat)
    requires i < 16
    ensures CROCKFORD[i] < CROCKFORD[i + 1]
  {}

  lemma NeighboursHigh(i: nat)
    requires 16 <= i < 31
    ensures CROCKFORD[i] < CROCKFORD[i + 1]
  {}

  /** The alphabet has no character twice, and sorts as its values do. */
  lemma {:induction false} AlphabetOrder(i: nat, j: nat)
    requires i < j < 32
    ensures CROCKFORD[i] < CROCKFORD[j]
  {
    Neighbours(j - 1);
    if i < j - 1 {
      AlphabetOrder(i, j - 1);
    }
  }

  lemma CharBack(d: nat)
    requires d < 32
    ensures Digit(Char(d)) == Some(d)
  {
    var i := IndexOf(CROCKFORD, Char(d));
    if i < d {
      AlphabetOrder(i, d);
    } else if d < i {
      AlphabetOrder(d, i);
    }
  }

  lemma DecodeLast(s: string, n: nat, d: nat)
    requires Decoded(s) == Some(n) && d < 32
    ensures Decoded(s + [Char(d)]) == Some(32 * n + d)
  {
    hide Digit, Char;
    CharBack(d);
    var t := s + [Char(d)];
    assert t[..|t| - 1] == s;
  }

  lemma DecodeNone(n: nat)
    ensures Decoded(Base32(n, 0)) == Some(n % Pow32(0))
  {
    hide Digit, Char;
  }

  /** Main: decoding inverts encoding, up to the bits the digits can hold. */
  lemma {:induction false} DecodesBack(n: nat, w: nat)
    ensures Decoded(Base32(n, w)) == Some(n % Pow32(w))
  {
    hide Digit, Char, Decoded, Base32;
    if w == 0 {
      DecodeNone(n);
    } else {
      DecodesBack(n / 32, w - 1);
      DigitMod(n, Pow32(w - 1));
      NextDigit(n, w - 1);
      DecodeLast(Base32(n / 32, w - 1), n / 32 % Pow32(w - 1), n % 32);
    }
  }

  lemma LastDigit(c: nat, d: nat)
    requires c < d < 32
    ensures Lex([Char(c)], [Char(d)])
  {
    AlphabetOrder(c, d);
  }

  lemma {:induction false} Base32Order(m: nat, n: nat, w: nat)
    requires m < n < Pow32(w)
    ensures Lex(Base32(m, w), Base32(n, w))
  {
    hide Base32, Char, Lex;
    var a, b, x, y := Base32(m / 32, w - 1), Base32(n / 32, w - 1), [Char(m % 32)], [Char(n % 32)];
    NextDigit(m, w - 1);
    NextDigit(n, w - 1);
    LexAppend(a, b, x, y);
    if m / 32 < n / 32 {
      Base32Order(m / 32, n / 32, w - 1);
    } else {
      LastDigit(m % 32, n % 32);
    }
  }

  /** Main: identifiers sort by their time, whatever their entropy. */
  lemma UlidsSortByTime(ms1: nat, ms2: nat, e1: nat, e2: nat)
    requires ms1 < ms2 < TWO_50
    ensures Lex(UlidOf(ms1, e1), UlidOf(ms2, e2))
  {
    hide Pow2, Pow32, Base32, Lex;
    PowersAre();
    Base32Order(ms1, ms2, 10);
    LexAppend(Base32(ms1, 10), Base32(ms2, 10), Base32(e1, 16), Base32(e2, 16));
  }

  /** Main: the identifier gives back its time and its entropy. */
  lemma UlidDecodes(ms: nat, e: nat)
    requires ms < TWO_50 && e < TWO_80
    ensures Decoded(UlidOf(ms, e)[..10]) == Some(ms) && Decoded(UlidOf(ms, e)[10..]) == Some(e)
  {
    hide Pow2, Pow32, Base32, Decoded;
    PowersAre();
    DecodesBack(ms, 10);
    DecodesBack(e, 16);
    assert UlidOf(ms, e)[..10] == Base32(ms, 10) && UlidOf(ms, e)[10..] == Base32(e, 16);
  }
}
