/** UTF-16 strings, their UTF-8 length, and the stored size announced before the digest is known. */
module Utf8 {
  import opened Bytes
  import opened Kvblob

  type CodeUnit = x: int | 0 <= x < 0x10000

  type Text = seq<CodeUnit>

  predicate IsHigh(u: CodeUnit) { 0xD800 <= u <= 0xDBFF }

  predicate IsLow(u: CodeUnit) { 0xDC00 <= u <= 0xDFFF }

  predicate PairAt(s: Text, i: nat) { i + 1 < |s| && IsHigh(s[i]) && IsLow(s[i + 1]) }

  /** A high surrogate not followed by a low one, or a low one not preceded by a high one. */
  predicate IsLone(s: Text, i: nat)
    requires i < |s|
  {
    (IsHigh(s[i]) && !PairAt(s, i)) || (IsLow(s[i]) && (i == 0 || !PairAt(s, i - 1)))
  }

  ghost predicate IsWellFormed(s: Text) { forall i :: 0 <= i < |s| ==> !IsLone(s, i) }

  /** `wellFormed`: every lone surrogate becomes U+FFFD. */
  function WellFormed(s: Text): (r: Text)
    ensures |r| == |s|
  {
    seq(|s|, i requires 0 <= i < |s| => if IsLone(s, i) then 0xFFFD else s[i])
  }

  // ── Section 3 of RFC 3629 ─────────────────────────────────────────────────

  type Scalar = x: int | 0 <= x < 0x110000

  function PairScalar(high: CodeUnit, low: CodeUnit): Scalar
    requires IsHigh(high) && IsLow(low)
  {
    0x10000 + (high - 0xD800) * 0x400 + (low - 0xDC00)
  }

  function EncodeScalar(c: Scalar): (b: bytes)
    ensures |b| == if c < 0x80 then 1 else if c < 0x800 then 2 else if c < 0x10000 then 3 else 4
  {
    if c < 0x80 then [c as byte]
    else if c < 0x800 then [(0xC0 + c / 0x40) as byte, (0x80 + c % 0x40) as byte]
    else if c < 0x10000 then [(0xE0 + c / 0x1000) as byte, (0x80 + c / 0x40 % 0x40) as byte, (0x80 + c % 0x40) as byte]
    else
      [(0xF0 + c / 0x40000) as byte, (0x80 + c / 0x1000 % 0x40) as byte,
       (0x80 + c / 0x40 % 0x40) as byte, (0x80 + c % 0x40) as byte]
  }

  /** What `TextEncoder` writes: pairs as one character, lone surrogates as U+FFFD. */
  function Encode(s: Text): bytes {
    if s == [] then []
    else if PairAt(s, 0) then EncodeScalar(PairScalar(s[0], s[1])) + Encode(s[2..])
    else if IsHigh(s[0]) || IsLow(s[0]) then EncodeScalar(0xFFFD) + Encode(s[1..])
    else EncodeScalar(s[0]) + Encode(s[1..])
  }

  /** The first character of some bytes and how many it takes. */
  function FirstScalar(b: bytes): Option<(Scalar, nat)> {
    if |b| >= 1 && b[0] < 0x80 then Some((b[0] as int, 1))
    else if |b| >= 2 && 0xC0 <= b[0] < 0xE0 && IsTrail(b[1]) then Some(((b[0] as int - 0xC0) * 0x40 + Trail(b[1]), 2))
    else if |b| >= 3 && 0xE0 <= b[0] < 0xF0 && IsTrail(b[1]) && IsTrail(b[2]) then
      Some(((b[0] as int - 0xE0) * 0x1000 + Trail(b[1]) * 0x40 + Trail(b[2]), 3))
    else if |b| >= 4 && 0xF0 <= b[0] < 0xF4 && IsTrail(b[1]) && IsTrail(b[2]) && IsTrail(b[3]) then
      Some(((b[0] as int - 0xF0) * 0x40000 + Trail(b[1]) * 0x1000 + Trail(b[2]) * 0x40 + Trail(b[3]), 4))
    else if |b| >= 4 && b[0] == 0xF4 && 0x80 <= b[1] < 0x90 && IsTrail(b[2]) && IsTrail(b[3]) then
      Some((0x100000 + Trail(b[1]) * 0x1000 + Trail(b[2]) * 0x40 + Trail(b[3]), 4))
    else None
  }

  predicate IsTrail(b: byte) { 0x80 <= b < 0xC0 }

  function Trail(b: byte): (t: nat)
    requires IsTrail(b)
    ensures t < 0x40
  {
    b as int - 0x80
  }

  lemma ScalarRoundTrip(c: Scalar, rest: bytes)
    ensures FirstScalar(EncodeScalar(c) + rest) == Some((c, |EncodeScalar(c)|))
  {
    if c < 0x80 {
    } else if c < 0x800 {
      TwoBytes(c, rest);
    } else if c < 0x10000 {
      ThreeBytes(c, rest);
    } else {
      FourBytes(c, rest);
    }
  }

  lemma TwoBytes(c: Scalar, rest: bytes)
    requires 0x80 <= c < 0x800
    ensures FirstScalar(EncodeScalar(c) + rest) == Some((c, 2))
  {
    var b := EncodeScalar(c) + rest;
    assert b[0] == (0xC0 + c / 0x40) as byte && b[1] == (0x80 + c % 0x40) as byte;
  }

  lemma ThreeBytes(c: Scalar, rest: bytes)
    requires 0x800 <= c < 0x10000
    ensures FirstScalar(EncodeScalar(c) + rest) == Some((c, 3))
  {
    var b := EncodeScalar(c) + rest;
    var d0, d1, d2 := Digits(c, 0x40);
    assert c / 0x1000 == d2;
    assert b[0] == (0xE0 + d2) as byte && b[1] == (0x80 + d1) as byte && b[2] == (0x80 + d0) as byte;
  }

  lemma FourBytes(c: Scalar, rest: bytes)
    requires 0x10000 <= c
    ensures FirstScalar(EncodeScalar(c) + rest) == Some((c, 4))
  {
    var b := EncodeScalar(c) + rest;
    var d0, d1, d2 := Digits(c, 0x40);
    assert c / 0x1000 == d2;
    assert d2 == d2 / 0x40 * 0x40 + d2 % 0x40 && d2 / 0x40 == c / 0x40000;
    FourDigits(b, c, d0, d1, d2 % 0x40, d2 / 0x40);
  }

  lemma FourDigits(b: bytes, c: Scalar, d0: nat, d1: nat, d2: nat, d3: nat)
    requires |b| >= 4 && c >= 0x10000 && d0 < 0x40 && d1 < 0x40 && d2 < 0x40 && d3 <= 4
    requires c == d3 * 0x40000 + d2 * 0x1000 + d1 * 0x40 + d0
    requires b[0] == (0xF0 + d3) as byte && b[1] == (0x80 + d2) as byte && b[2] == (0x80 + d1) as byte
    requires b[3] == (0x80 + d0) as byte
    ensures FirstScalar(b) == Some((c, 4))
  {
  }

  /** A number's last two digits in a base, and the rest. */
  lemma Digits(c: nat, base: nat) returns (d0: nat, d1: nat, d2: nat)
    requires base == 0x40
    ensures d0 == c % 0x40 && d1 == c / 0x40 % 0x40 && d2 == c / 0x1000
    ensures c == d2 * 0x1000 + d1 * 0x40 + d0
  {
    d0, d1, d2 := c % 0x40, c / 0x40 % 0x40, c / 0x40 / 0x40;
    assert c == c / 0x40 * 0x40 + d0 && c / 0x40 == d2 * 0x40 + d1;
  }

  function UnitsOf(c: Scalar): Text {
    if c < 0x10000 then [c] else [0xD800 + (c - 0x10000) / 0x400, 0xDC00 + (c - 0x10000) % 0x400]
  }

  function Decode(b: bytes): Text {
    match FirstScalar(b)
    case None => []
    case Some((c, n)) => if 0 < n <= |b| then UnitsOf(c) + Decode(b[n..]) else []
  }

  // ── Lengths ───────────────────────────────────────────────────────────────

  /** What `utf8Length` counts: a high surrogate is taken for a pair, whatever follows it. */
  function Utf8Length(s: Text): nat {
    if s == [] then 0
    else if s[0] < 0x80 then 1 + Utf8Length(s[1..])
    else if s[0] < 0x800 then 2 + Utf8Length(s[1..])
    else if IsHigh(s[0]) then 4 + (if |s| > 1 then Utf8Length(s[2..]) else 0)
    else 3 + Utf8Length(s[1..])
  }

  method CountUtf8(text: Text) returns (bytes: nat)
    ensures bytes == Utf8Length(text)
  {
    bytes := 0;
    var i := 0;
    while i < |text|
      invariant 0 <= i <= |text| + 1
      invariant bytes + (if i < |text| then Utf8Length(text[i..]) else 0) == Utf8Length(text)
      decreases |text| - i
    {
      var code := text[i];
      assert text[i..][1..] == text[i + 1..];
      if code < 0x80 {
        bytes := bytes + 1;
      } else if code < 0x800 {
        bytes := bytes + 2;
      } else if IsHigh(code) {
        if i + 1 < |text| {
          assert text[i..][2..] == text[i + 2..];
        }
        bytes := bytes + 4;
        i := i + 1;
      } else {
        bytes := bytes + 3;
      }
      i := i + 1;
    }
  }

  lemma TailIsWellFormed(s: Text)
    requires IsWellFormed(s) && s != []
    ensures if PairAt(s, 0) then IsWellFormed(s[2..]) else IsWellFormed(s[1..]) && !IsHigh(s[0]) && !IsLow(s[0])
  {
    assert !IsLone(s, 0);
    var n := if PairAt(s, 0) then 2 else 1;
    forall i | 0 <= i < |s| - n
      ensures !IsLone(s[n..], i)
    {
      TailLone(s, n, i);
      assert !IsLone(s, n + i);
    }
  }

  /** Cut after a whole character, the rest has the same lone surrogates. */
  lemma TailLone(s: Text, n: nat, i: nat)
    requires n + i < |s| && n == if PairAt(s, 0) then 2 else 1
    ensures IsLone(s[n..], i) == IsLone(s, n + i)
  {
    assert PairAt(s[n..], i) == PairAt(s, n + i);
    assert i > 0 ==> PairAt(s[n..], i - 1) == PairAt(s, n + i - 1);
  }

  /** Every high surrogate is followed by a low one; low ones may stand alone. */
  ghost predicate HighsPaired(s: Text) { forall i :: 0 <= i < |s| && IsHigh(s[i]) ==> PairAt(s, i) }

  lemma TailIsPaired(s: Text)
    requires HighsPaired(s) && s != []
    ensures if IsHigh(s[0]) then PairAt(s, 0) && HighsPaired(s[2..]) else HighsPaired(s[1..])
  {
    var n := if PairAt(s, 0) then 2 else 1;
    assert IsHigh(s[0]) ==> PairAt(s, 0);
    forall i | 0 <= i < |s| - n && IsHigh(s[n..][i])
      ensures PairAt(s[n..], i)
    {
      assert IsHigh(s[n + i]);
    }
  }

  /** How many bytes the encoder writes for one unit that is not half of a pair. */
  function UnitBytes(u: CodeUnit): nat { if u < 0x80 then 1 else if u < 0x800 then 2 else 3 }

  /**
   * How far the count is ahead of the encoding. A lone high surrogate is counted as four bytes for three and the
   * unit after it is skipped: at the end of the text that is one too many, before a character of its own one less
   * its bytes, and before a pair nothing, since the pair's second half is then counted alone.
   */
  function Surplus(s: Text): int {
    if s == [] then 0
    else if PairAt(s, 0) then Surplus(s[2..])
    else if !IsHigh(s[0]) then Surplus(s[1..])
    else if |s| == 1 then 1
    else if PairAt(s, 1) then Surplus(s[3..])
    else 1 - UnitBytes(s[1]) + Surplus(s[2..])
  }

  lemma {:induction false} CountIsAhead(s: Text)
    ensures Utf8Length(s) == |Encode(s)| + Surplus(s)
    decreases |s|
  {
    if s == [] {
    } else if PairAt(s, 0) {
      CountIsAhead(s[2..]);
    } else if !IsHigh(s[0]) {
      CountIsAhead(s[1..]);
    } else if |s| == 1 {
      assert s[1..] == [];
    } else if PairAt(s, 1) {
      assert s[1..][2..] == s[3..] && s[2..][1..] == s[3..];
      CountIsAhead(s[3..]);
    } else {
      assert s[1..][1..] == s[2..];
      CountIsAhead(s[2..]);
    }
  }

  /** The count is the length of the encoding exactly when the surpluses of the lone high surrogates cancel. */
  lemma CountIsExact(s: Text)
    ensures Utf8Length(s) == |Encode(s)| <==> Surplus(s) == 0
  {
    CountIsAhead(s);
  }

  lemma {:induction false} SurplusSplit(a: Text, b: Text)
    requires HighsPaired(a)
    ensures Surplus(a + b) == Surplus(b)
    decreases |a|
  {
    if a == [] {
      assert a + b == b;
    } else {
      var n := if IsHigh(a[0]) then 2 else 1;
      TailIsPaired(a);
      assert (a + b)[n..] == a[n..] + b;
      SurplusSplit(a[n..], b);
    }
  }

  lemma PairedIsExact(s: Text)
    requires HighsPaired(s)
    ensures Surplus(s) == 0
  {
    SurplusSplit(s, []);
    assert s + [] == s;
  }

  /** It is whenever no high surrogate stands alone. */
  lemma PairedLength(s: Text)
    requires HighsPaired(s)
    ensures Utf8Length(s) == |Encode(s)|
  {
    PairedIsExact(s);
    CountIsExact(s);
  }

  /** On well-formed text in particular. */
  lemma LengthOfEncoding(s: Text)
    requires IsWellFormed(s)
    ensures Utf8Length(s) == |Encode(s)|
  {
    assert forall i :: 0 <= i < |s| && IsHigh(s[i]) ==> !IsLone(s, i);
    PairedLength(s);
  }

  /**
   * One high surrogate alone, anywhere in a text, miscounts it exactly when it is the last unit or stands
   * before a character of two or three bytes.
   */
  lemma LoneSurrogateMiscounts(a: Text, high: CodeUnit, b: Text)
    requires HighsPaired(a) && IsHigh(high) && HighsPaired(b) && (b == [] || !IsLow(b[0]))
    ensures Utf8Length(a + [high] + b) == |Encode(a + [high] + b)| <==> b != [] && (b[0] < 0x80 || IsHigh(b[0]))
  {
    var rest := [high] + b;
    assert a + [high] + b == a + rest;
    CountIsExact(a + rest);
    SurplusSplit(a, rest);
    assert rest[1..] == b;
    if b != [] {
      TailIsPaired(b);
      PairedIsExact(b[if IsHigh(b[0]) then 2 else 1..]);
      assert rest[2..] == b[1..] && (IsHigh(b[0]) ==> rest[3..] == b[2..]);
    }
  }

  /** The encoding of well-formed text can be read back. */
  lemma {:induction false} DecodeEncode(s: Text)
    requires IsWellFormed(s)
    ensures Decode(Encode(s)) == s
    decreases |s|
  {
    if s != [] {
      var c, n := FirstCharacter(s);
      DecodeEncode(s[n..]);
      DecodeFirst(c, Encode(s[n..]));
      assert s == s[..n] + s[n..];
    }
  }

  lemma FirstCharacter(s: Text) returns (c: Scalar, n: nat)
    requires IsWellFormed(s) && s != []
    ensures 0 < n <= |s| && IsWellFormed(s[n..])
    ensures Encode(s) == EncodeScalar(c) + Encode(s[n..]) && UnitsOf(c) == s[..n]
  {
    TailIsWellFormed(s);
    n := if PairAt(s, 0) then 2 else 1;
    c := if PairAt(s, 0) then PairScalar(s[0], s[1]) else s[0];
    if PairAt(s, 0) {
      PairUnits(s[0], s[1]);
    }
  }

  lemma PairUnits(high: CodeUnit, low: CodeUnit)
    requires IsHigh(high) && IsLow(low)
    ensures UnitsOf(PairScalar(high, low)) == [high, low]
  {
  }

  lemma DecodeFirst(c: Scalar, rest: bytes)
    ensures Decode(EncodeScalar(c) + rest) == UnitsOf(c) + Decode(rest)
  {
    ScalarRoundTrip(c, rest);
    assert (EncodeScalar(c) + rest)[|EncodeScalar(c)|..] == rest;
  }

  // ── Replacing lone surrogates ─────────────────────────────────────────────

  lemma WellFormedIsWellFormed(s: Text)
    ensures IsWellFormed(WellFormed(s))
  {
    var r := WellFormed(s);
    forall i | 0 <= i < |r|
      ensures !IsLone(r, i)
    {
      assert PairAt(s, i) ==> PairAt(r, i) by {
        assert PairAt(s, i) ==> !IsLone(s, i) && !IsLone(s, i + 1);
      }
      assert i > 0 && PairAt(s, i - 1) ==> PairAt(r, i - 1) by {
        assert i > 0 && PairAt(s, i - 1) ==> !IsLone(s, i - 1) && !IsLone(s, i);
      }
    }
  }

  /** Text is changed exactly when it has a lone surrogate. */
  lemma UnchangedMeansWellFormed(s: Text)
    ensures WellFormed(s) == s <==> IsWellFormed(s)
  {
    WellFormedIsWellFormed(s);
    if IsWellFormed(s) {
      assert WellFormed(s) == s;
    }
  }

  lemma ReplacingOnceIsEnough(s: Text)
    ensures WellFormed(WellFormed(s)) == WellFormed(s)
  {
    WellFormedIsWellFormed(s);
    UnchangedMeansWellFormed(WellFormed(s));
  }

  lemma WellFormedTail(s: Text)
    requires s != []
    ensures PairAt(s, 0) ==> WellFormed(s)[2..] == WellFormed(s[2..])
    ensures !PairAt(s, 0) ==> WellFormed(s)[1..] == WellFormed(s[1..])
  {
    var n := if PairAt(s, 0) then 2 else 1;
    forall i | 0 <= i < |s| - n
      ensures IsLone(s, n + i) == IsLone(s[n..], i)
    {
      TailLone(s, n, i);
    }
    assert WellFormed(s)[n..] == WellFormed(s[n..]);
  }

  /** The replacement is the one the encoder would make: it changes the text and not the bytes written. */
  lemma {:induction false} EncodesTheSame(s: Text)
    ensures Encode(WellFormed(s)) == Encode(s)
    decreases |s|
  {
    if s != [] {
      var r := WellFormed(s);
      WellFormedTail(s);
      if PairAt(s, 0) {
        assert !IsLone(s, 0) && !IsLone(s, 1);
        EncodesTheSame(s[2..]);
      } else {
        EncodesTheSame(s[1..]);
      }
    }
  }

  // ── The announced size ────────────────────────────────────────────────────

  const PLACEHOLDER: Text := seq(64, _ => 0x30)

  predicate IsAscii(s: Text) { forall i :: 0 <= i < |s| ==> s[i] < 0x80 }

  /** The first place from `k` on where `what` stands. */
  function Find(text: Text, what: Text, k: nat): (i: Option<nat>)
    requires k <= |text|
    ensures i.Some? ==> i.value + |what| <= |text| && text[i.value..i.value + |what|] == what
    decreases |text| - k
  {
    if |text| < k + |what| then None
    else if text[k..k + |what|] == what then Some(k)
    else if k == |text| then None
    else Find(text, what, k + 1)
  }

  /** `text.replace(what, with)`: the first occurrence. */
  function ReplaceFirst(text: Text, what: Text, with: Text): Text {
    match Find(text, what, 0)
    case None => text
    case Some(i) => text[..i] + with + text[i + |what|..]
  }

  /** An encoding can be cut before a character that is not the second half of a pair. */
  lemma {:induction false} EncodeSplit(a: Text, b: Text)
    requires b == [] || !IsLow(b[0])
    ensures Encode(a + b) == Encode(a) + Encode(b)
    decreases |a|
  {
    if a == [] {
      assert a + b == b;
    } else {
      var n := if PairAt(a, 0) then 2 else 1;
      assert (a + b)[n..] == a[n..] + b;
      assert PairAt(a + b, 0) == PairAt(a, 0);
      EncodeSplit(a[n..], b);
    }
  }

  lemma {:induction false} AsciiLength(s: Text)
    requires IsAscii(s)
    ensures |Encode(s)| == |s|
  {
    if s != [] {
      AsciiLength(s[1..]);
    }
  }

  /** Swapping one run of ASCII for another of the same length keeps the encoded length. */
  lemma SameLength(a: Text, x: Text, y: Text, b: Text)
    requires IsAscii(x) && IsAscii(y) && |x| == |y| > 0
    ensures |Encode(a + x + b)| == |Encode(a + y + b)|
  {
    LengthAround(a, x, b);
    LengthAround(a, y, b);
  }

  lemma LengthAround(a: Text, x: Text, b: Text)
    requires IsAscii(x) && x != []
    ensures |Encode(a + x + b)| == |Encode(a)| + |x| + |Encode(b)|
  {
    assert a + x + b == a + (x + b);
    EncodeSplit(a, x + b);
    AsciiThen(x, b);
  }

  lemma {:induction false} AsciiThen(x: Text, b: Text)
    requires IsAscii(x)
    ensures |Encode(x + b)| == |x| + |Encode(b)|
  {
    if x == [] {
      assert x + b == b;
    } else {
      assert (x + b)[1..] == x[1..] + b;
      AsciiThen(x[1..], b);
    }
  }

  /** Filling in the digest keeps the header's length, whatever else is in the header. */
  lemma DigestKeepsLength(template: Text, digest: Text)
    requires IsAscii(digest) && |digest| == |PLACEHOLDER|
    ensures |Encode(ReplaceFirst(template, PLACEHOLDER, digest))| == |Encode(template)|
  {
    var found := Find(template, PLACEHOLDER, 0);
    if found.Some? {
      var i, j := found.value, found.value + |PLACEHOLDER|;
      assert template == template[..i] + PLACEHOLDER + template[j..] by {
        assert template == template[..i] + template[i..j] + template[j..];
      }
      SameLength(template[..i], PLACEHOLDER, digest, template[j..]);
    }
  }

  /**
   * `JSON.stringify` of one character, as QuoteJSONString of ECMA-262 (2019) has it: what it does not keep becomes
   * ASCII.
   */
  function QuotedUnit(u: CodeUnit): Text {
    if u == 0x22 || u == 0x5C then [0x5C, u]
    else if u == 0x08 then [0x5C, 0x62]
    else if u == 0x09 then [0x5C, 0x74]
    else if u == 0x0A then [0x5C, 0x6E]
    else if u == 0x0C then [0x5C, 0x66]
    else if u == 0x0D then [0x5C, 0x72]
    else if u < 0x20 || IsHigh(u) || IsLow(u) then
      [0x5C, 0x75, HexDigit(u / 0x1000), HexDigit(u / 0x100 % 0x10), HexDigit(u / 0x10 % 0x10), HexDigit(u % 0x10)]
    else [u]
  }

  function HexDigit(n: nat): (u: CodeUnit)
    requires n < 16
    ensures u < 0x80
  {
    if n < 10 then 0x30 + n else 0x57 + n
  }

  /** And of a whole string: pairs are kept, lone surrogates escaped. */
  function Quoted(s: Text): Text {
    if s == [] then []
    else if PairAt(s, 0) then s[..2] + Quoted(s[2..])
    else QuotedUnit(s[0]) + Quoted(s[1..])
  }

  lemma JoinWellFormed(a: Text, b: Text)
    requires IsWellFormed(a) && IsWellFormed(b)
    ensures IsWellFormed(a + b)
  {
    forall i | 0 <= i < |a + b|
      ensures !IsLone(a + b, i)
    {
      if i < |a| {
        assert !IsLone(a, i);
        assert PairAt(a, i) ==> PairAt(a + b, i);
        assert i > 0 && PairAt(a, i - 1) ==> PairAt(a + b, i - 1);
      } else {
        assert !IsLone(b, i - |a|);
        assert PairAt(b, i - |a|) ==> PairAt(a + b, i);
        assert i > |a| && PairAt(b, i - |a| - 1) ==> PairAt(a + b, i - 1);
      }
    }
  }

  /** Whatever is quoted, what is written is well-formed. */
  lemma {:induction false} QuotedIsWellFormed(s: Text)
    ensures IsWellFormed(Quoted(s))
    decreases |s|
  {
    if s != [] {
      var n := if PairAt(s, 0) then 2 else 1;
      QuotedIsWellFormed(s[n..]);
      JoinWellFormed(if n == 2 then s[..2] else QuotedUnit(s[0]), Quoted(s[n..]));
    }
  }

  /** The header `JSON.stringify` lays out: ASCII around the quoted type and the quoted file name. */
  datatype HeaderText = HeaderText(before: Text, mime: Text, between: Text, filename: Text, after: Text) {
    function Template(): Text { before + Quoted(mime) + between + Quoted(WellFormed(filename)) + after }

    ghost predicate Valid() { IsAscii(before) && IsAscii(between) && IsAscii(after) }

    lemma IsWellFormedText()
      requires Valid()
      ensures IsWellFormed(Template())
    {
      QuotedIsWellFormed(mime);
      QuotedIsWellFormed(WellFormed(filename));
      JoinWellFormed(before, Quoted(mime));
      JoinWellFormed(before + Quoted(mime), between);
      JoinWellFormed(before + Quoted(mime) + between, Quoted(WellFormed(filename)));
      JoinWellFormed(before + Quoted(mime) + between + Quoted(WellFormed(filename)), after);
    }
  }

  /** `kvblobHeaderBytes` of the template. */
  function HeaderBytes(template: Text): nat { |MAGIC| + 4 + Utf8Length(template) }

  /**
   * The size fixed from the template, before the file was read, is the size of what is stored: the sealed
   * object's header is the template with the digest written over the placeholder.
   */
  lemma AnnouncedSizeIsStored(prim: Primitives, header: HeaderText, digest: Text, sealed: Sealed, size: nat, frame: pos)
    requires header.Valid() && IsAscii(digest) && |digest| == |PLACEHOLDER|
    requires prim.render(sealed.header) == Encode(ReplaceFirst(header.Template(), PLACEHOLDER, digest))
    requires |prim.render(sealed.header)| < COUNTERS
    requires sealed.headerBytes == |Preamble(prim, sealed.header)|
    requires |sealed.blob| == CipherBytes(size, sealed.headerBytes, frame)
    ensures sealed.headerBytes == HeaderBytes(header.Template())
    ensures |sealed.blob| == CipherBytes(size, HeaderBytes(header.Template()), frame)
  {
    header.IsWellFormedText();
    LengthOfEncoding(header.Template());
    DigestKeepsLength(header.Template(), digest);
  }
}
