/** The authenticated data of records and vault keys: fields one after another, each string with
  its length before it, so that no two inputs share their bytes.
 */
module Aad {
  import opened SyncModel
  import opened Utf8
  import N = JournalNames

  datatype AadError = NotWellFormed | TooLarge | NotDecimal

  type Encoded = Result<Bytes, AadError>

  const MAX_DIGITS := 19

  /******* Integers *******/

  /** The lowest `k` bytes of a number, most significant first. */
  function BigEndian(n: nat, k: nat): (bytes: Bytes)
    ensures |bytes| == k
  {
    if k == 0 then [] else BigEndian(n / 256, k - 1) + [n % 256]
  }

  function Unsigned(bytes: Bytes): nat {
    if bytes == [] then 0 else 256 * Unsigned(bytes[..|bytes| - 1]) + bytes[|bytes| - 1]
  }

  function Pow256(k: nat): nat {
    if k == 0 then 1 else 256 * Pow256(k - 1)
  }

  lemma {:induction false} BigEndianReads(n: nat, k: nat)
    requires n < Pow256(k)
    ensures Unsigned(BigEndian(n, k)) == n
  {
    if k > 0 {
      BigEndianReads(n / 256, k - 1);
      assert BigEndian(n, k)[..k - 1] == BigEndian(n / 256, k - 1);
    }
  }

  function U32(n: nat): Encoded {
    if n > 0xFFFF_FFFF then Err(TooLarge) else Ok(BigEndian(n, 4))
  }

  /** Digits without a leading zero, or zero itself. */
  predicate Canonical(s: string) {
    s != "" && N.AllDigits(s) && (s == "0" || s[0] != '0')
  }

  function ParseDecimal(s: string): Option<nat> {
    if |s| <= MAX_DIGITS && Canonical(s) && N.Value(s, 0) <= MAX_WIRE_BIGINT then Some(N.Value(s, 0)) else None
  }

  function U64(s: string): Encoded {
    match ParseDecimal(s)
    case Some(n) => Ok(BigEndian(n, 8))
    case None => Err(NotDecimal)
  }

  lemma {:induction false} CanonicalIsDecimal(s: string)
    requires Canonical(s)
    ensures N.Decimal(N.Value(s, 0)) == s
    ensures s != "0" ==> N.Value(s, 0) > 0
    decreases |s|
  {
    var n := |s| - 1;
    assert s == s[..n] + [s[n]];
    if n == 0 {
      assert s[1..] == "";
    } else {
      assert Canonical(s[..n]);
      CanonicalIsDecimal(s[..n]);
      N.ValueOfLonger(s[..n], s[n], 0);
      assert s[..n] != "0";
    }
  }

  /** Two accepted decimals name the same number only if they are the same string. */
  lemma DecimalIsInjective(a: string, b: string)
    requires ParseDecimal(a).Some? && ParseDecimal(a) == ParseDecimal(b)
    ensures a == b
  {
    CanonicalIsDecimal(a);
    CanonicalIsDecimal(b);
  }

  lemma Widths()
    ensures Pow256(4) == 0x1_0000_0000 && Pow256(8) == 0x1_0000_0000_0000_0000
  {
    assert Pow256(2) == 65536;
    assert Pow256(4) == 65536 * Pow256(2);
    assert Pow256(6) == 65536 * Pow256(4);
    assert Pow256(8) == 65536 * Pow256(6);
  }

  lemma U32IsInjective(a: nat, b: nat)
    requires U32(a).Ok? && U32(a) == U32(b)
    ensures a == b
  {
    Widths();
    BigEndianReads(a, 4);
    BigEndianReads(b, 4);
  }

  lemma U64IsInjective(a: string, b: string)
    requires U64(a).Ok? && U64(a) == U64(b)
    ensures a == b
  {
    Widths();
    BigEndianReads(ParseDecimal(a).value, 8);
    BigEndianReads(ParseDecimal(b).value, 8);
    DecimalIsInjective(a, b);
  }

  /******* Strings *******/

  function Lp(s: Utf16): Encoded {
    if !WellFormedUtf16(s) then Err(NotWellFormed)
    else
      match U32(|Encode(s)|)
      case Ok(length) => Ok(length + Encode(s))
      case Err(e) => Err(e)
  }

  /** A length-prefixed string is the start of no other: it can be cut off again. */
  lemma LpCut(a: Utf16, restA: Bytes, b: Utf16, restB: Bytes)
    requires Lp(a).Ok? && Lp(b).Ok? && Lp(a).value + restA == Lp(b).value + restB
    ensures a == b && restA == restB
  {
    var x, y := Lp(a).value + restA, Lp(b).value + restB;
    assert x[..4] == U32(|Encode(a)|).value && y[..4] == U32(|Encode(b)|).value;
    U32IsInjective(|Encode(a)|, |Encode(b)|);
    var n := 4 + |Encode(a)|;
    assert x[4..n] == Encode(a) && y[4..n] == Encode(b);
    assert x[n..] == restA && y[n..] == restB;
    Utf8IsInjective(a, b);
  }

  lemma FixedCut(a: Bytes, restA: Bytes, b: Bytes, restB: Bytes)
    requires |a| == |b| && a + restA == b + restB
    ensures a == b && restA == restB
  {
    assert a == (a + restA)[..|a|] && b == (b + restB)[..|b|];
    assert restA == (a + restA)[|a|..] && restB == (b + restB)[|b|..];
  }

  /******* Concatenation *******/

  function Concat(parts: seq<Bytes>): Bytes {
    if parts == [] then [] else Concat(parts[..|parts| - 1]) + parts[|parts| - 1]
  }

  function TotalSize(parts: seq<Bytes>): nat {
    if parts == [] then 0 else TotalSize(parts[..|parts| - 1]) + |parts[|parts| - 1]|
  }

  lemma {:induction false} SizeOfConcat(parts: seq<Bytes>)
    ensures |Concat(parts)| == TotalSize(parts)
  {
    if parts != [] {
      SizeOfConcat(parts[..|parts| - 1]);
    }
  }

  lemma {:induction false} PrefixFits(parts: seq<Bytes>, k: nat)
    requires k <= |parts|
    ensures TotalSize(parts[..k]) <= TotalSize(parts)
  {
    if k < |parts| {
      assert parts[..|parts| - 1][..k] == parts[..k];
      PrefixFits(parts[..|parts| - 1], k);
    } else {
      assert parts[..k] == parts;
    }
  }

  /** One buffer of the total size, filled part by part. */
  method ConcatParts(parts: seq<Bytes>) returns (result: array<Byte>)
    ensures fresh(result) && result[..] == Concat(parts)
  {
    result := new Byte[TotalSize(parts)](_ => 0);
    var offset := 0;
    for p := 0 to |parts|
      invariant offset == TotalSize(parts[..p]) <= result.Length
      invariant result[..offset] == Concat(parts[..p])
    {
      assert parts[..p + 1][..p] == parts[..p];
      PrefixFits(parts, p + 1);
      SetAt(result, offset, parts[p]);
      offset := offset + |parts[p]|;
    }
    assert parts[..|parts|] == parts;
    assert result[..] == result[..offset];
  }

  method SetAt(result: array<Byte>, offset: nat, part: Bytes)
    requires offset + |part| <= result.Length
    modifies result
    ensures result[..offset + |part|] == old(result[..offset]) + part
    ensures result[offset + |part|..] == old(result[offset + |part|..])
  {
    for k := 0 to |part|
      invariant result[..offset] == old(result[..offset])
      invariant result[offset..offset + k] == part[..k]
      invariant result[offset + |part|..] == old(result[offset + |part|..])
    {
      result[offset + k] := part[k];
      assert part[..k + 1] == part[..k] + [part[k]];
      assert result[offset..offset + k + 1] == result[offset..offset + k] + [result[offset + k]];
    }
    assert result[..offset + |part|] == result[..offset] + result[offset..offset + |part|];
  }

  /******* The two layouts *******/

  /** Fields are encoded in turn; the first that fails is reported. */
  function Then(first: Encoded, rest: Encoded): Encoded {
    if first.Err? then first else if rest.Err? then rest else Ok(first.value + rest.value)
  }

  datatype RecordInput =
    RecordInput(format: Utf16, version: nat, vaultId: Utf16, recordId: Utf16, revision: string)

  datatype VaultKeyInput = VaultKeyInput(
    format: Utf16,
    version: nat,
    vaultId: Utf16,
    keyRevision: string,
    kdfAlgorithm: Utf16,
    salt: Utf16,
    operationsLimit: nat,
    memoryLimit: nat,
    createdAt: Utf16)

  function RecordAad(r: RecordInput): Encoded {
    Then(Lp(r.format), Then(U32(r.version), Then(Lp(r.vaultId), Then(Lp(r.recordId), U64(r.revision)))))
  }

  /** `algorithm` is the fixed name of the encryption algorithm. */
  function VaultKeyAad(k: VaultKeyInput, algorithm: Utf16): Encoded {
    Then(Lp(k.format), Then(U32(k.version), Then(Lp(k.vaultId), Then(U64(k.keyRevision), KdfAad(k, algorithm)))))
  }

  function KdfAad(k: VaultKeyInput, algorithm: Utf16): Encoded {
    Then(Lp(k.kdfAlgorithm), Then(Lp(k.salt), LimitsAad(k, algorithm)))
  }

  function LimitsAad(k: VaultKeyInput, algorithm: Utf16): Encoded {
    Then(U64(N.Decimal(k.operationsLimit)),
         Then(U64(N.Decimal(k.memoryLimit)), Then(Lp(algorithm), Lp(k.createdAt))))
  }

  lemma ConcatMore(parts: seq<Bytes>, part: Bytes)
    ensures Concat(parts + [part]) == Concat(parts) + part
  {
    assert (parts + [part])[..|parts|] == parts;
  }

  lemma ConcatOfFive(a: Bytes, b: Bytes, c: Bytes, d: Bytes, e: Bytes)
    ensures Concat([a, b, c, d, e]) == a + (b + (c + (d + e)))
  {
    var one, two, three, four := [a], [a, b], [a, b, c], [a, b, c, d];
    assert [] + [a] == one && [] + a == a;
    ConcatMore([], a);
    assert one + [b] == two;
    ConcatMore(one, b);
    assert two + [c] == three;
    ConcatMore(two, c);
    assert three + [d] == four;
    ConcatMore(three, d);
    assert four + [e] == [a, b, c, d, e];
    ConcatMore(four, e);
    Reassociated(a, b, c, d, e);
  }

  lemma Reassociated(a: Bytes, b: Bytes, c: Bytes, d: Bytes, e: Bytes)
    ensures (((a + b) + c) + d) + e == a + (b + (c + (d + e)))
  {
  }

  /** The record layout as the program builds it: five parts, concatenated in one buffer. */
  method EncodeRecordAad(r: RecordInput) returns (aad: Encoded)
    ensures aad == RecordAad(r)
  {
    var format, version, vaultId := Lp(r.format), U32(r.version), Lp(r.vaultId);
    var recordId, revision := Lp(r.recordId), U64(r.revision);
    if format.Err? { return format; }
    if version.Err? { return version; }
    if vaultId.Err? { return vaultId; }
    if recordId.Err? { return recordId; }
    if revision.Err? { return revision; }
    var buffer := ConcatParts([format.value, version.value, vaultId.value, recordId.value, revision.value]);
    ConcatOfFive(format.value, version.value, vaultId.value, recordId.value, revision.value);
    return Ok(buffer[..]);
  }

  /** A string at the head of two equal encodings is the same, and so is what follows. */
  lemma StringHead(a: Utf16, restA: Encoded, b: Utf16, restB: Encoded)
    requires Then(Lp(a), restA).Ok? && Then(Lp(a), restA) == Then(Lp(b), restB)
    ensures a == b && restA.Ok? && restA == restB
  {
    LpCut(a, restA.value, b, restB.value);
  }

  lemma U32Head(a: nat, restA: Encoded, b: nat, restB: Encoded)
    requires Then(U32(a), restA).Ok? && Then(U32(a), restA) == Then(U32(b), restB)
    ensures a == b && restA.Ok? && restA == restB
  {
    FixedCut(U32(a).value, restA.value, U32(b).value, restB.value);
    U32IsInjective(a, b);
  }

  lemma U64Head(a: string, restA: Encoded, b: string, restB: Encoded)
    requires Then(U64(a), restA).Ok? && Then(U64(a), restA) == Then(U64(b), restB)
    ensures a == b && restA.Ok? && restA == restB
  {
    FixedCut(U64(a).value, restA.value, U64(b).value, restB.value);
    U64IsInjective(a, b);
  }

  lemma NumberHead(a: nat, restA: Encoded, b: nat, restB: Encoded)
    requires Then(U64(N.Decimal(a)), restA).Ok?
    requires Then(U64(N.Decimal(a)), restA) == Then(U64(N.Decimal(b)), restB)
    ensures a == b && restA.Ok? && restA == restB
  {
    U64Head(N.Decimal(a), restA, N.Decimal(b), restB);
    N.DecimalReads(a);
    N.DecimalReads(b);
  }

  /** Two record inputs with the same bytes are equal, field by field. */
  lemma RecordAadIsInjective(a: RecordInput, b: RecordInput)
    requires RecordAad(a).Ok? && RecordAad(a) == RecordAad(b)
    ensures a == b
  {
    var a3, b3 := Then(Lp(a.recordId), U64(a.revision)), Then(Lp(b.recordId), U64(b.revision));
    var a2, b2 := Then(Lp(a.vaultId), a3), Then(Lp(b.vaultId), b3);
    StringHead(a.format, Then(U32(a.version), a2), b.format, Then(U32(b.version), b2));
    U32Head(a.version, a2, b.version, b2);
    StringHead(a.vaultId, a3, b.vaultId, b3);
    StringHead(a.recordId, U64(a.revision), b.recordId, U64(b.revision));
    U64IsInjective(a.revision, b.revision);
  }

  lemma KdfAadIsInjective(a: VaultKeyInput, b: VaultKeyInput, algorithm: Utf16)
    requires KdfAad(a, algorithm).Ok? && KdfAad(a, algorithm) == KdfAad(b, algorithm)
    ensures a.kdfAlgorithm == b.kdfAlgorithm && a.salt == b.salt
    ensures LimitsAad(a, algorithm).Ok? && LimitsAad(a, algorithm) == LimitsAad(b, algorithm)
  {
    StringHead(a.kdfAlgorithm, Then(Lp(a.salt), LimitsAad(a, algorithm)),
               b.kdfAlgorithm, Then(Lp(b.salt), LimitsAad(b, algorithm)));
    StringHead(a.salt, LimitsAad(a, algorithm), b.salt, LimitsAad(b, algorithm));
  }

  lemma LimitsAadIsInjective(a: VaultKeyInput, b: VaultKeyInput, algorithm: Utf16)
    requires LimitsAad(a, algorithm).Ok? && LimitsAad(a, algorithm) == LimitsAad(b, algorithm)
    ensures a.operationsLimit == b.operationsLimit && a.memoryLimit == b.memoryLimit && a.createdAt == b.createdAt
  {
    var a2, b2 := Then(Lp(algorithm), Lp(a.createdAt)), Then(Lp(algorithm), Lp(b.createdAt));
    NumberHead(a.operationsLimit, Then(U64(N.Decimal(a.memoryLimit)), a2),
               b.operationsLimit, Then(U64(N.Decimal(b.memoryLimit)), b2));
    NumberHead(a.memoryLimit, a2, b.memoryLimit, b2);
    StringHead(algorithm, Lp(a.createdAt), algorithm, Lp(b.createdAt));
    assert Lp(a.createdAt).value + [] == Lp(b.createdAt).value + [];
    LpCut(a.createdAt, [], b.createdAt, []);
  }

  /** Two vault-key inputs with the same bytes are equal, field by field. */
  lemma VaultKeyAadIsInjective(a: VaultKeyInput, b: VaultKeyInput, algorithm: Utf16)
    requires VaultKeyAad(a, algorithm).Ok? && VaultKeyAad(a, algorithm) == VaultKeyAad(b, algorithm)
    ensures a == b
  {
    var a3, b3 := Then(U64(a.keyRevision), KdfAad(a, algorithm)), Then(U64(b.keyRevision), KdfAad(b, algorithm));
    var a2, b2 := Then(Lp(a.vaultId), a3), Then(Lp(b.vaultId), b3);
    StringHead(a.format, Then(U32(a.version), a2), b.format, Then(U32(b.version), b2));
    U32Head(a.version, a2, b.version, b2);
    StringHead(a.vaultId, a3, b.vaultId, b3);
    U64Head(a.keyRevision, KdfAad(a, algorithm), b.keyRevision, KdfAad(b, algorithm));
    KdfAadIsInjective(a, b, algorithm);
    LimitsAadIsInjective(a, b, algorithm);
  }

  /** The code units of an ASCII string. */
  function Ascii(s: string): (r: Utf16)
    ensures |r| == |s|
  {
    seq(|s|, k requires 0 <= k < |s| => s[k] as int % 0x1_0000)
  }

  /** A record and a vault key share their bytes only if they share their format; the formats of
      the two kinds are fixed, so they never do. */
  lemma KindsNeverCollide(r: RecordInput, k: VaultKeyInput, algorithm: Utf16)
    requires RecordAad(r).Ok?
    ensures RecordAad(r) == VaultKeyAad(k, algorithm) ==> r.format == k.format
    ensures r.format == Ascii("svrgn-vault-record") && k.format == Ascii("svrgn-vault-key") ==>
      RecordAad(r) != VaultKeyAad(k, algorithm)
  {
    if RecordAad(r) == VaultKeyAad(k, algorithm) {
      StringHead(r.format, Then(U32(r.version), Then(Lp(r.vaultId), Then(Lp(r.recordId), U64(r.revision)))),
                 k.format, Then(U32(k.version), Then(Lp(k.vaultId), Then(U64(k.keyRevision), KdfAad(k, algorithm)))));
    }
  }
}
