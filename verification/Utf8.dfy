/** UTF-8 (section 3 of RFC 3629) over strings of UTF-16 code units, as the mobile encoder and
  the platform encoder produce it: a surrogate without its partner becomes U+FFFD.
 */
module Utf8 {

  type Unit = u: nat | u < 0x1_0000
  type Utf16 = seq<Unit>
  type Byte = b: nat | b < 256
  type Bytes = seq<Byte>
  type CodePoint = c: nat | c < 0x11_0000

  const REPLACEMENT: CodePoint := 0xFFFD

  predicate IsHigh(u: nat) {
    0xD800 <= u <= 0xDBFF
  }

  predicate IsLow(u: nat) {
    0xDC00 <= u <= 0xDFFF
  }

  predicate IsScalar(c: nat) {
    c < 0x11_0000 && !IsHigh(c) && !IsLow(c)
  }

  type Scalar = c: nat | IsScalar(c)

  predicate StartsPair(s: Utf16) {
    |s| > 1 && IsHigh(s[0]) && IsLow(s[1])
  }

  /** Every surrogate is half of a pair. */
  predicate WellFormedUtf16(s: Utf16) {
    if s == [] then true
    else if IsHigh(s[0]) then |s| > 1 && IsLow(s[1]) && WellFormedUtf16(s[2..])
    else !IsLow(s[0]) && WellFormedUtf16(s[1..])
  }

  method IsWellFormedUtf16(s: Utf16) returns (r: bool)
    ensures r == WellFormedUtf16(s)
  {
    var index := 0;
    while index < |s|
      invariant 0 <= index <= |s|
      invariant WellFormedUtf16(s) == WellFormedUtf16(s[index..])
    {
      var unit := s[index];
      if IsHigh(unit) {
        if index + 1 >= |s| || !IsLow(s[index + 1]) {
          return false;
        }
        assert s[index..][2..] == s[index + 2..];
        index := index + 1;
      } else if IsLow(unit) {
        return false;
      } else {
        assert s[index..][1..] == s[index + 1..];
      }
      index := index + 1;
    }
    return true;
  }

  function Pair(high: Unit, low: Unit): (c: Scalar)
    requires IsHigh(high) && IsLow(low)
    ensures c >= 0x1_0000
  {
    0x1_0000 + (high - 0xD800) * 0x400 + (low - 0xDC00)
  }

  /** The first code point, a lone surrogate replaced, and how many units it takes. */
  function First(s: Utf16): (r: (Scalar, nat))
    requires s != []
    ensures 0 < r.1 <= |s|
  {
    if StartsPair(s) then (Pair(s[0], s[1]), 2) else (if IsScalar(s[0]) then s[0] else REPLACEMENT, 1)
  }

  function Scalars(s: Utf16): seq<Scalar>
    decreases |s|
  {
    if s == [] then [] else [First(s).0] + Scalars(s[First(s).1..])
  }

  /** A shift to the right by six bits. */
  function Shift6(c: nat): (r: nat)
    ensures c == 64 * r + c % 64
  {
    c / 64
  }

  /** A continuation byte with the low six bits. */
  function Trail(c: nat): (b: Byte)
    ensures b == 0x80 + c % 64
  {
    0x80 + c % 64
  }

  function EncodeScalar(c: Scalar): (bytes: Bytes)
    ensures 1 <= |bytes| <= 4
  {
    if c < 0x80 then [c]
    else if c < 0x800 then [0xC0 + Shift6(c), Trail(c)]
    else if c < 0x1_0000 then [0xE0 + Shift6(Shift6(c)), Trail(Shift6(c)), Trail(c)]
    else
      assert IsScalar(c) && Shift6(Shift6(Shift6(c))) <= 4;
      [0xF0 + Shift6(Shift6(Shift6(c))), Trail(Shift6(Shift6(c))), Trail(Shift6(c)), Trail(c)]
  }

  function EncodeScalars(cs: seq<Scalar>): Bytes {
    if cs == [] then [] else EncodeScalar(cs[0]) + EncodeScalars(cs[1..])
  }

  function Encode(s: Utf16): Bytes {
    EncodeScalars(Scalars(s))
  }

  lemma {:induction false} EncodeScalarsAppend(cs: seq<Scalar>, c: Scalar)
    ensures EncodeScalars(cs + [c]) == EncodeScalars(cs) + EncodeScalar(c)
  {
    if cs == [] {
      assert cs + [c] == [c] && [c][1..] == [];
      assert EncodeScalars([c]) == EncodeScalar(c) + [];
    } else {
      assert (cs + [c])[1..] == cs[1..] + [c];
      EncodeScalarsAppend(cs[1..], c);
    }
  }

  method NextCode(value: Utf16, index: nat) returns (code: Scalar, taken: nat)
    requires index < |value|
    ensures (code, taken) == First(value[index..])
  {
    if IsHigh(value[index]) && index + 1 < |value| && IsLow(value[index + 1]) {
      return Pair(value[index], value[index + 1]), 2;
    }
    if 0xD800 <= value[index] <= 0xDFFF {
      return REPLACEMENT, 1;
    }
    return value[index], 1;
  }

  lemma ScalarsAfter(value: Utf16, index: nat, done: seq<Scalar>)
    requires index < |value|
    ensures var (code, taken) := First(value[index..]);
      index + taken <= |value| &&
      done + Scalars(value[index..]) == (done + [code]) + Scalars(value[index + taken..])
  {
    var rest := value[index..];
    var (code, taken) := First(rest);
    assert rest[taken..] == value[index + taken..];
    assert done + ([code] + Scalars(rest[taken..])) == (done + [code]) + Scalars(rest[taken..]);
  }

  /** The mobile encoder: code points in turn, their bytes appended. */
  method EncodeUtf8(value: Utf16) returns (bytes: Bytes)
    ensures bytes == Encode(value)
  {
    bytes := [];
    ghost var done: seq<Scalar> := [];
    var index := 0;
    while index < |value|
      invariant 0 <= index <= |value|
      invariant Scalars(value) == done + Scalars(value[index..])
      invariant bytes == EncodeScalars(done)
    {
      var code, taken := NextCode(value, index);
      ScalarsAfter(value, index, done);
      EncodeScalarsAppend(done, code);
      bytes := bytes + EncodeScalar(code);
      done := done + [code];
      index := index + taken;
    }
    assert value[|value|..] == [];
    assert done + [] == done;
  }

  /******* Decoding *******/

  /** How many bytes a first byte announces. */
  function Announced(first: Byte): nat {
    if first < 0x80 then 1 else if first < 0xE0 then 2 else if first < 0xF0 then 3 else 4
  }

  /** The code point that an encoding opens with. */
  function FirstScalar(bytes: Bytes): int
    requires bytes != [] && |bytes| >= Announced(bytes[0])
  {
    var n := Announced(bytes[0]);
    if n == 1 then bytes[0]
    else if n == 2 then 64 * Bits(bytes[0], 0xC0) + Bits(bytes[1], 0x80)
    else if n == 3 then 64 * (64 * Bits(bytes[0], 0xE0) + Bits(bytes[1], 0x80)) + Bits(bytes[2], 0x80)
    else
      64 * (64 * (64 * Bits(bytes[0], 0xF0) + Bits(bytes[1], 0x80)) + Bits(bytes[2], 0x80)) + Bits(bytes[3], 0x80)
  }

  function Bits(b: int, mark: int): int {
    b - mark
  }

  lemma FirstScalarOfEncoded(c: Scalar, rest: Bytes)
    ensures var bytes := EncodeScalar(c) + rest;
      && Announced(bytes[0]) == |EncodeScalar(c)| <= |bytes|
      && FirstScalar(bytes) == c
  {
  }

  predicate IsTrail(b: Byte) {
    0x80 <= b <= 0xBF
  }

  /** The encoding is the shortest: the forms of section 4 of RFC 3629, each for its range. */
  lemma EncodedIsShortest(c: Scalar)
    ensures var bytes := EncodeScalar(c);
      && (|bytes| == 1 <==> c < 0x80)
      && (|bytes| == 2 <==> 0x80 <= c < 0x800)
      && (|bytes| == 3 <==> 0x800 <= c < 0x1_0000)
      && (|bytes| == 4 <==> 0x1_0000 <= c)
      && (|bytes| == 1 ==> bytes[0] < 0x80)
      && (|bytes| == 2 ==> 0xC2 <= bytes[0] <= 0xDF)
      && (|bytes| == 3 ==> 0xE0 <= bytes[0] <= 0xEF)
      && (|bytes| == 4 ==> 0xF0 <= bytes[0] <= 0xF4)
      && (forall k :: 0 < k < |bytes| ==> IsTrail(bytes[k]))
      && FirstScalar(bytes) == c
  {
    FirstScalarOfEncoded(c, []);
    assert EncodeScalar(c) + [] == EncodeScalar(c);
    assert IsScalar(c);
  }

  /** No encoding is a prefix of another. */
  lemma {:induction false} EncodingIsInjective(a: seq<Scalar>, b: seq<Scalar>)
    requires EncodeScalars(a) == EncodeScalars(b)
    ensures a == b
  {
    EncodingIsEmpty(a);
    EncodingIsEmpty(b);
    if a != [] {
      var restA, restB := EncodeScalars(a[1..]), EncodeScalars(b[1..]);
      FirstScalarOfEncoded(a[0], restA);
      FirstScalarOfEncoded(b[0], restB);
      assert a[0] == b[0];
      var n := |EncodeScalar(a[0])|;
      assert restA == (EncodeScalar(a[0]) + restA)[n..] && restB == (EncodeScalar(b[0]) + restB)[n..];
      EncodingIsInjective(a[1..], b[1..]);
      assert a == [a[0]] + a[1..] && b == [b[0]] + b[1..];
    }
  }

  lemma EncodingIsEmpty(cs: seq<Scalar>)
    ensures EncodeScalars(cs) == [] <==> cs == []
  {
    if cs != [] {
      assert EncodeScalars(cs)[0] == EncodeScalar(cs[0])[0];
    }
  }

  function Units(c: Scalar): Utf16 {
    if c < 0x1_0000 then [c]
    else
      assert IsScalar(c) && (c - 0x1_0000) / 0x400 < 0x400;
      var high: Unit := 0xD800 + (c - 0x1_0000) / 0x400;
      var low: Unit := 0xDC00 + (c - 0x1_0000) % 0x400;
      [high, low]
  }

  function Joined(cs: seq<Scalar>): Utf16 {
    if cs == [] then [] else Units(cs[0]) + Joined(cs[1..])
  }

  /** A well-formed string is its code points. */
  lemma {:induction false} ScalarsJoin(s: Utf16)
    requires WellFormedUtf16(s)
    ensures Joined(Scalars(s)) == s
  {
    hide Pair, Units;
    if s != [] {
      if StartsPair(s) {
        ScalarsJoin(s[2..]);
        UnitsOfPair(s[0], s[1]);
        JoinedHead(Pair(s[0], s[1]), Scalars(s[2..]));
        assert s == [s[0], s[1]] + s[2..];
      } else {
        ScalarsJoin(s[1..]);
        JoinedHead(s[0], Scalars(s[1..]));
        assert s == [s[0]] + s[1..];
      }
    }
  }

  lemma UnitsOfPair(high: Unit, low: Unit)
    requires IsHigh(high) && IsLow(low)
    ensures Units(Pair(high, low)) == [high, low]
  {
  }

  lemma JoinedHead(c: Scalar, cs: seq<Scalar>)
    ensures Joined([c] + cs) == Units(c) + Joined(cs)
    ensures c < 0x1_0000 ==> Units(c) == [c]
  {
    assert ([c] + cs)[1..] == cs;
  }

  /** Two strings have the same bytes exactly if they have the same code points once lone
      surrogates are replaced; for well-formed strings, exactly if they are equal. */
  lemma Utf8IsInjective(a: Utf16, b: Utf16)
    ensures Encode(a) == Encode(b) <==> Scalars(a) == Scalars(b)
    ensures WellFormedUtf16(a) && WellFormedUtf16(b) ==> (Encode(a) == Encode(b) <==> a == b)
  {
    if Encode(a) == Encode(b) {
      EncodingIsInjective(Scalars(a), Scalars(b));
      if WellFormedUtf16(a) && WellFormedUtf16(b) {
        ScalarsJoin(a);
        ScalarsJoin(b);
      }
    }
  }

  /** The string with U+FFFD in the place of every surrogate that is not half of a pair. */
  function Repaired(s: Utf16): Utf16
    decreases |s|
  {
    if s == [] then []
    else if StartsPair(s) then s[..2] + Repaired(s[2..])
    else [if IsHigh(s[0]) || IsLow(s[0]) then 0xFFFD else s[0]] + Repaired(s[1..])
  }

  /** The encoder repairs: every string has the bytes of its repaired form, which is well formed, and
      a well-formed string needs no repair. */
  lemma EncodesRepaired(s: Utf16)
    ensures WellFormedUtf16(Repaired(s)) && Encode(s) == Encode(Repaired(s))
    ensures WellFormedUtf16(s) ==> Repaired(s) == s
  {
    ScalarsOfRepaired(s);
  }

  lemma {:induction false} ScalarsOfRepaired(s: Utf16)
    ensures WellFormedUtf16(Repaired(s)) && Scalars(s) == Scalars(Repaired(s))
    ensures WellFormedUtf16(s) ==> Repaired(s) == s
    decreases |s|
  {
    var r := Repaired(s);
    if StartsPair(s) {
      ScalarsOfRepaired(s[2..]);
      assert r[0] == s[0] && r[1] == s[1] && r[2..] == Repaired(s[2..]);
      assert s == s[..2] + s[2..];
    } else if s != [] {
      ScalarsOfRepaired(s[1..]);
      assert r[1..] == Repaired(s[1..]) && !StartsPair(r);
      assert s == [s[0]] + s[1..];
    }
  }

  /** Without the check for lone surrogates different strings would share their bytes. */
  lemma LoneSurrogatesCollide()
    ensures Encode([0xD800]) == Encode([0xFFFD])
    ensures !WellFormedUtf16([0xD800])
  {
    var lone: Utf16 := [0xD800];
    var plain: Utf16 := [0xFFFD];
    assert First(lone) == First(plain) == (REPLACEMENT, 1);
    assert lone[1..] == plain[1..];
  }
}
