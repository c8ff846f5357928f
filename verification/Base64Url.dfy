/** Unpadded URL-safe base64 (section 5 of RFC 4648), accepted in its canonical form only. */
module Base64Url {
  import opened SyncModel
  import opened Utf8

  type Sextet = x: nat | x < 64

  datatype Limits = Limits(exact: Option<nat>, min: Option<nat>, max: Option<nat>)

  datatype DecodeError = NotUrlSafe | WrongSize | BadLength | NotCanonical

  predicate IsUrlSafe(c: char) {
    'A' <= c <= 'Z' || 'a' <= c <= 'z' || '0' <= c <= '9' || c == '-' || c == '_'
  }

  function SextetOf(c: char): Sextet
    requires IsUrlSafe(c)
  {
    if 'A' <= c <= 'Z' then c as int - 'A' as int
    else if 'a' <= c <= 'z' then c as int - 'a' as int + 26
    else if '0' <= c <= '9' then c as int - '0' as int + 52
    else if c == '-' then 62
    else 63
  }

  function CharOf(x: Sextet): (c: char)
    ensures IsUrlSafe(c) && SextetOf(c) == x
  {
    if x < 26 then ('A' as int + x) as char
    else if x < 52 then ('a' as int + x - 26) as char
    else if x < 62 then ('0' as int + x - 52) as char
    else if x == 62 then '-'
    else '_'
  }

  predicate AllUrlSafe(s: string) {
    forall k :: 0 <= k < |s| ==> IsUrlSafe(s[k])
  }

  function High6(a: int): (x: Sextet)
    requires 0 <= a < 256
  {
    a / 4
  }

  function Mid4(a: int, b: int): (x: Sextet)
    requires 0 <= a < 256 && 0 <= b < 256
  {
    a % 4 * 16 + b / 16
  }

  function Mid2(b: int, c: int): (x: Sextet)
    requires 0 <= b < 256 && 0 <= c < 256
  {
    b % 16 * 4 + c / 64
  }

  function Low6(c: int): (x: Sextet)
    requires 0 <= c < 256
  {
    c % 64
  }

  function FirstByte(w: int, x: int): (b: Byte)
    requires 0 <= w < 64 && 0 <= x < 64
  {
    w * 4 + x / 16
  }

  function SecondByte(x: int, y: int): (b: Byte)
    requires 0 <= x < 64 && 0 <= y < 64
  {
    x % 16 * 16 + y / 4
  }

  function ThirdByte(y: int, z: int): (b: Byte)
    requires 0 <= y < 64 && 0 <= z < 64
  {
    y % 4 * 64 + z
  }

  function Group(bytes: Bytes): (xs: seq<Sextet>)
    requires |bytes| == 3
    ensures |xs| == 4
  {
    [High6(bytes[0]), Mid4(bytes[0], bytes[1]), Mid2(bytes[1], bytes[2]), Low6(bytes[2])]
  }

  function Ungroup(xs: seq<Sextet>): (bytes: Bytes)
    requires |xs| == 4
    ensures |bytes| == 3
  {
    [FirstByte(xs[0], xs[1]), SecondByte(xs[1], xs[2]), ThirdByte(xs[2], xs[3])]
  }

  /** Three bytes as four sextets; a rest of one or two bytes is filled up with zero bits. */
  function Sextets(bytes: Bytes): seq<Sextet> {
    if bytes == [] then []
    else if |bytes| == 1 then [High6(bytes[0]), Mid4(bytes[0], 0)]
    else if |bytes| == 2 then [High6(bytes[0]), Mid4(bytes[0], bytes[1]), Mid2(bytes[1], 0)]
    else Group(bytes[..3]) + Sextets(bytes[3..])
  }

  /** Four sextets as three bytes; in a rest of two or three the unused low bits are dropped. */
  function FromSextets(xs: seq<Sextet>): Bytes
    requires |xs| % 4 != 1
  {
    if xs == [] then []
    else if |xs| == 2 then [FirstByte(xs[0], xs[1])]
    else if |xs| == 3 then [FirstByte(xs[0], xs[1]), SecondByte(xs[1], xs[2])]
    else Ungroup(xs[..4]) + FromSextets(xs[4..])
  }

  lemma BytesReadBack(a: Byte, b: Byte, c: Byte)
    ensures FirstByte(High6(a), Mid4(a, b)) == a
    ensures SecondByte(Mid4(a, b), Mid2(b, c)) == b
    ensures ThirdByte(Mid2(b, c), Low6(c)) == c
  {
  }

  lemma SextetsOfBytes(w: Sextet, x: Sextet, y: Sextet, z: Sextet)
    ensures var a, b, c := FirstByte(w, x), SecondByte(x, y), ThirdByte(y, z);
      && High6(a) == w && Mid4(a, b) == x && Mid2(b, c) == y && Low6(c) == z
      && (Mid4(a, 0) == x <==> x % 16 == 0)
      && (Mid2(b, 0) == y <==> y % 4 == 0)
  {
  }

  function Text(xs: seq<Sextet>): (s: string)
    ensures |s| == |xs| && AllUrlSafe(s)
    ensures forall k :: 0 <= k < |s| ==> s[k] == CharOf(xs[k])
  {
    seq(|xs|, k requires 0 <= k < |xs| => CharOf(xs[k]))
  }

  function SextetsOf(s: string): (xs: seq<Sextet>)
    requires AllUrlSafe(s)
    ensures |xs| == |s| && forall k :: 0 <= k < |xs| ==> xs[k] == SextetOf(s[k])
  {
    seq(|s|, k requires 0 <= k < |s| => SextetOf(s[k]))
  }

  function EncodeBase64Url(bytes: Bytes): string {
    Text(Sextets(bytes))
  }

  /** The length of the encoding of `n` bytes. */
  function EncodedLength(n: nat): nat {
    (4 * n + 2) / 3
  }

  predicate Fits(n: nat, limits: Limits) {
    && (limits.exact.Some? ==> n == limits.exact.value)
    && (limits.min.Some? ==> n >= limits.min.value)
    && (limits.max.Some? ==> n <= limits.max.value)
  }

  /** Sizes are checked on the text first, so that a long one is never decoded. */
  function DecodeBase64Url(s: string, limits: Limits): Result<Bytes, DecodeError> {
    if s == "" || !AllUrlSafe(s) then Err(NotUrlSafe)
    else if limits.max.Some? && |s| > EncodedLength(limits.max.value) then Err(WrongSize)
    else if limits.exact.Some? && |s| != EncodedLength(limits.exact.value) then Err(WrongSize)
    else if |s| % 4 == 1 then Err(BadLength)
    else
      var bytes := FromSextets(SextetsOf(s));
      if EncodeBase64Url(bytes) != s then Err(NotCanonical)
      else if !Fits(|bytes|, limits) then Err(WrongSize)
      else Ok(bytes)
  }

  lemma GroupReadsBack(bytes: Bytes)
    requires |bytes| == 3
    ensures Ungroup(Group(bytes)) == bytes
  {
    BytesReadBack(bytes[0], bytes[1], bytes[2]);
  }

  lemma UngroupReadsBack(xs: seq<Sextet>)
    requires |xs| == 4
    ensures Group(Ungroup(xs)) == xs
  {
    SextetsOfBytes(xs[0], xs[1], xs[2], xs[3]);
  }

  lemma OneReadsBack(a: Byte)
    ensures FromSextets([High6(a), Mid4(a, 0)]) == [a]
  {
    BytesReadBack(a, 0, 0);
  }

  lemma TwoReadBack(a: Byte, b: Byte)
    ensures FromSextets([High6(a), Mid4(a, b), Mid2(b, 0)]) == [a, b]
  {
    BytesReadBack(a, b, 0);
  }

  lemma {:induction false} SextetsLength(bytes: Bytes)
    ensures |Sextets(bytes)| == EncodedLength(|bytes|) && |Sextets(bytes)| % 4 != 1
  {
    if |bytes| >= 3 {
      SextetsLength(bytes[3..]);
    }
  }

  lemma {:induction false} SextetsReadBack(bytes: Bytes)
    ensures |Sextets(bytes)| % 4 != 1 && FromSextets(Sextets(bytes)) == bytes
  {
    SextetsLength(bytes);
    if |bytes| == 1 {
      OneReadsBack(bytes[0]);
      assert bytes == [bytes[0]];
    } else if |bytes| == 2 {
      TwoReadBack(bytes[0], bytes[1]);
      assert bytes == [bytes[0], bytes[1]];
    } else if |bytes| >= 3 {
      SextetsReadBack(bytes[3..]);
      GroupReadsBack(bytes[..3]);
      var xs := Sextets(bytes);
      assert xs[..4] == Group(bytes[..3]) && xs[4..] == Sextets(bytes[3..]);
      assert bytes == bytes[..3] + bytes[3..];
    }
  }

  lemma TextReadsBack(xs: seq<Sextet>)
    ensures SextetsOf(Text(xs)) == xs
  {
  }

  /** A text is accepted exactly if it is the encoding of the bytes, they are not empty, and their
      number fits the limits: the checks on the length of the text refuse nothing else. */
  lemma AcceptedExactly(s: string, bytes: Bytes, limits: Limits)
    ensures DecodeBase64Url(s, limits) == Ok(bytes) <==>
            s == EncodeBase64Url(bytes) && bytes != [] && Fits(|bytes|, limits)
  {
    SextetsReadBack(bytes);
    TextReadsBack(Sextets(bytes));
    SextetsLength(bytes);
  }

  /** Every non-empty byte string has one accepted text, and that decodes to it. */
  lemma OneTextEach(a: string, b: string, bytes: Bytes, limits: Limits)
    requires bytes != [] && Fits(|bytes|, limits)
    ensures DecodeBase64Url(EncodeBase64Url(bytes), limits) == Ok(bytes)
    ensures DecodeBase64Url(a, limits) == Ok(bytes) && DecodeBase64Url(b, limits) == Ok(bytes) ==> a == b
  {
    AcceptedExactly(EncodeBase64Url(bytes), bytes, limits);
    AcceptedExactly(a, bytes, limits);
    AcceptedExactly(b, bytes, limits);
  }

  /** The bits of the last character that stand for no byte. */
  function UnusedBits(xs: seq<Sextet>): nat
    requires |xs| % 4 != 1
  {
    if |xs| % 4 == 2 then xs[|xs| - 1] % 16 else if |xs| % 4 == 3 then xs[|xs| - 1] % 4 else 0
  }

  lemma ShortRoundTrip(xs: seq<Sextet>)
    requires |xs| == 2 || |xs| == 3
    ensures Sextets(FromSextets(xs)) == xs <==> UnusedBits(xs) == 0
  {
    if |xs| == 2 {
      SextetsOfBytes(xs[0], xs[1], 0, 0);
      assert FromSextets(xs) == [FirstByte(xs[0], xs[1])];
      assert Sextets(FromSextets(xs)) == [xs[0], Mid4(FirstByte(xs[0], xs[1]), 0)];
    } else {
      SextetsOfBytes(xs[0], xs[1], xs[2], 0);
      var a, b := FirstByte(xs[0], xs[1]), SecondByte(xs[1], xs[2]);
      assert FromSextets(xs) == [a, b];
      assert Sextets(FromSextets(xs)) == [xs[0], xs[1], Mid2(b, 0)];
    }
    hide Sextets, FromSextets, FirstByte, SecondByte, Mid4, Mid2;
  }

  lemma SextetsOfJoined(first: Bytes, rest: Bytes)
    requires |first| == 3
    ensures Sextets(first + rest) == Group(first) + Sextets(rest)
  {
    hide Group;
    assert (first + rest)[..3] == first && (first + rest)[3..] == rest;
  }

  lemma FromSextetsFirst(xs: seq<Sextet>)
    requires |xs| % 4 != 1 && |xs| >= 4
    ensures |xs[4..]| % 4 != 1 && FromSextets(xs) == Ungroup(xs[..4]) + FromSextets(xs[4..])
  {
    hide Ungroup;
  }

  lemma LongRoundTrip(xs: seq<Sextet>)
    requires |xs| % 4 != 1 && |xs| >= 4
    ensures Sextets(FromSextets(xs)) == xs[..4] + Sextets(FromSextets(xs[4..]))
  {
    hide Sextets, FromSextets, Group, Ungroup;
    FromSextetsFirst(xs);
    UngroupReadsBack(xs[..4]);
    SextetsOfJoined(Ungroup(xs[..4]), FromSextets(xs[4..]));
  }

  lemma UnusedBitsOfRest(xs: seq<Sextet>)
    requires |xs| % 4 != 1 && |xs| >= 4
    ensures |xs[4..]| % 4 != 1 && UnusedBits(xs) == UnusedBits(xs[4..])
  {
    if |xs| > 4 {
      assert xs[4..][|xs| - 5] == xs[|xs| - 1];
    }
  }

  lemma SameRest(first: seq<Sextet>, a: seq<Sextet>, b: seq<Sextet>)
    ensures first + a == first + b <==> a == b
  {
    assert a == (first + a)[|first|..] && b == (first + b)[|first|..];
  }

  lemma {:induction false} RoundTripDropsUnusedBits(xs: seq<Sextet>)
    requires |xs| % 4 != 1
    ensures Sextets(FromSextets(xs)) == xs <==> UnusedBits(xs) == 0
  {
    if |xs| >= 4 {
      hide Sextets, FromSextets, UnusedBits;
      UnusedBitsOfRest(xs);
      RoundTripDropsUnusedBits(xs[4..]);
      LongRoundTrip(xs);
      assert xs == xs[..4] + xs[4..];
      SameRest(xs[..4], Sextets(FromSextets(xs[4..])), xs[4..]);
    } else if xs != [] {
      ShortRoundTrip(xs);
    }
  }

  /** The canonical form is what it is compared with: it fails exactly for unused bits that are set. */
  lemma NotCanonicalMeansUnusedBits(s: string, limits: Limits)
    requires s != "" && AllUrlSafe(s) && |s| % 4 != 1
    requires limits.max.Some? ==> |s| <= EncodedLength(limits.max.value)
    requires limits.exact.Some? ==> |s| == EncodedLength(limits.exact.value)
    ensures DecodeBase64Url(s, limits) == Err(NotCanonical) <==> UnusedBits(SextetsOf(s)) != 0
  {
    var xs := SextetsOf(s);
    RoundTripDropsUnusedBits(xs);
    TextOfSextets(s);
    TextReadsBack(Sextets(FromSextets(xs)));
  }

  lemma TextOfSextets(s: string)
    requires AllUrlSafe(s)
    ensures Text(SextetsOf(s)) == s
  {
    forall k | 0 <= k < |s|
      ensures CharOf(SextetOf(s[k])) == s[k]
    {
    }
  }

  /******* The format itself *******/

  /** Table 2 of RFC 4648. */
  const CAPITALS := "ABCDEFGHIJKLMNOPQRSTUVWXYZ"
  const SMALL := "abcdefghijklmnopqrstuvwxyz"
  const DIGITS := "0123456789"
  const ALPHABET := CAPITALS + SMALL + DIGITS + "-_"

  lemma SextetsAreLetters(x: Sextet)
    ensures |ALPHABET| == 64 && CharOf(x) == ALPHABET[x]
  {
    assert forall k :: 0 <= k < 26 ==> CAPITALS[k] as int == 'A' as int + k;
    assert forall k :: 0 <= k < 26 ==> SMALL[k] as int == 'a' as int + k;
    assert forall k :: 0 <= k < 10 ==> DIGITS[k] as int == '0' as int + k;
    if x < 26 {
      assert ALPHABET[x] == CAPITALS[x];
    } else if x < 52 {
      assert ALPHABET[x] == SMALL[x - 26];
    } else if x < 62 {
      assert ALPHABET[x] == DIGITS[x - 52];
    }
  }

  function Read64(w: int, x: int, y: int, z: int): int {
    0x4_0000 * w + 0x1000 * x + 0x40 * y + z
  }

  function Read256(a: int, b: int, c: int): int {
    0x1_0000 * a + 0x100 * b + c
  }

  function OrZero(s: seq<int>, k: nat): int {
    if k < |s| then s[k] else 0
  }

  /** Four characters stand for the 24 bits of three bytes, in order; what is missing at the end of
      either counts as zeros. */
  ghost predicate GroupStands(bytes: Bytes, xs: seq<Sextet>, g: nat) {
    Read64(OrZero(xs, 4 * g), OrZero(xs, 4 * g + 1), OrZero(xs, 4 * g + 2), OrZero(xs, 4 * g + 3)) ==
    Read256(OrZero(bytes, 3 * g), OrZero(bytes, 3 * g + 1), OrZero(bytes, 3 * g + 2))
  }

  lemma OneGroup(a: Byte, b: Byte, c: Byte)
    ensures Read64(High6(a), Mid4(a, b), Mid2(b, c), Low6(c)) == Read256(a, b, c)
  {
  }

  lemma {:induction false} EveryGroupStands(bytes: Bytes, g: nat)
    requires 3 * g < |bytes|
    ensures |Sextets(bytes)| == EncodedLength(|bytes|) && GroupStands(bytes, Sextets(bytes), g)
  {
    SextetsLength(bytes);
    var xs := Sextets(bytes);
    if g == 0 {
      FirstGroupStands(bytes);
    } else {
      hide GroupStands;
      EveryGroupStands(bytes[3..], g - 1);
      assert xs[4..] == Sextets(bytes[3..]);
      LaterGroup(bytes, xs, g);
    }
  }

  lemma FirstGroupStands(bytes: Bytes)
    requires bytes != []
    ensures GroupStands(bytes, Sextets(bytes), 0)
  {
    if |bytes| == 1 {
      OneGroup(bytes[0], 0, 0);
    } else if |bytes| == 2 {
      OneGroup(bytes[0], bytes[1], 0);
    } else {
      OneGroup(bytes[0], bytes[1], bytes[2]);
      FullGroupFirst(bytes, Group(bytes[..3]), Sextets(bytes[3..]));
    }
  }

  lemma FullGroupFirst(bytes: Bytes, group: seq<Sextet>, rest: seq<Sextet>)
    requires |bytes| >= 3 && |group| == 4
    requires Read64(group[0], group[1], group[2], group[3]) == Read256(bytes[0], bytes[1], bytes[2])
    ensures GroupStands(bytes, group + rest, 0)
  {
    hide Read64, Read256;
    assert forall k: nat :: k < 4 ==> OrZero(group + rest, k) == group[k];
  }

  lemma LaterGroup(bytes: Bytes, xs: seq<Sextet>, g: nat)
    requires 0 < g && 3 <= |bytes| && 4 <= |xs| && GroupStands(bytes[3..], xs[4..], g - 1)
    ensures GroupStands(bytes, xs, g)
  {
    assert forall k: nat :: OrZero(xs[4..], k) == OrZero(xs, k + 4);
    assert forall k: nat :: OrZero(bytes[3..], k) == OrZero(bytes, k + 3);
  }

  /** Every encoded text: its length, its letters, and the bits that they stand for. */
  lemma EncodedText(bytes: Bytes)
    ensures var s := EncodeBase64Url(bytes);
      && |s| == EncodedLength(|bytes|) && |Sextets(bytes)| == |s|
      && (forall k :: 0 <= k < |s| ==> s[k] == ALPHABET[Sextets(bytes)[k]])
      && (forall g: nat :: 3 * g < |bytes| ==> GroupStands(bytes, Sextets(bytes), g))
  {
    SextetsLength(bytes);
    var s := EncodeBase64Url(bytes);
    forall k | 0 <= k < |s|
      ensures s[k] == ALPHABET[Sextets(bytes)[k]]
    {
      SextetsAreLetters(Sextets(bytes)[k]);
    }
    forall g: nat | 3 * g < |bytes|
      ensures GroupStands(bytes, Sextets(bytes), g)
    {
      EveryGroupStands(bytes, g);
    }
  }

  /** Why a text is refused. */
  lemma RefusedBecause(s: string, limits: Limits)
    ensures var r := DecodeBase64Url(s, limits);
      && (r == Err(NotUrlSafe) <==> s == "" || exists c <- s :: !IsUrlSafe(c))
      && (r == Err(BadLength) ==> |s| % 4 == 1)
      && (r == Err(NotCanonical) ==> AllUrlSafe(s) && |s| % 4 != 1 && UnusedBits(SextetsOf(s)) != 0)
      && (r == Err(WrongSize) ==> |s| % 4 == 1 || !Fits(|s| * 3 / 4, limits))
  {
    hide FromSextets, EncodeBase64Url, UnusedBits, IsUrlSafe;
    assert AllUrlSafe(s) <==> forall c <- s :: IsUrlSafe(c);
    if s != "" && AllUrlSafe(s) && |s| % 4 != 1 {
      FromSextetsLength(SextetsOf(s));
      if DecodeBase64Url(s, limits) == Err(NotCanonical) {
        NotCanonicalMeansUnusedBits(s, limits);
      }
    }
    if |s| % 4 != 1 {
      TooLongDoesNotFit(|s|, limits);
      hide Fits, EncodedLength;
    }
  }

  lemma LengthOfText(length: nat)
    requires length % 4 != 1
    ensures EncodedLength(length * 3 / 4) == length
  {
    var q, r := length / 4, length % 4;
    assert length == 4 * q + r && length * 3 / 4 == 3 * q + r * 3 / 4;
  }

  lemma LongerText(a: nat, b: nat)
    requires a <= b
    ensures EncodedLength(a) <= EncodedLength(b)
  {
  }

  lemma TooLongDoesNotFit(length: nat, limits: Limits)
    requires length % 4 != 1
    ensures limits.max.Some? && length > EncodedLength(limits.max.value) ==> !Fits(length * 3 / 4, limits)
    ensures limits.exact.Some? && length != EncodedLength(limits.exact.value) ==> !Fits(length * 3 / 4, limits)
  {
    LengthOfText(length);
    if limits.max.Some? && length * 3 / 4 <= limits.max.value {
      LongerText(length * 3 / 4, limits.max.value);
    }
    hide EncodedLength;
  }

  lemma {:induction false} FromSextetsLength(xs: seq<Sextet>)
    requires |xs| % 4 != 1
    ensures |FromSextets(xs)| == |xs| * 3 / 4
  {
    if |xs| >= 4 {
      FromSextetsLength(xs[4..]);
    }
  }
}
