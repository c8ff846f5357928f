/** At which byte each field of the authenticated data stands, and which inputs can be encoded. */
module AadLayout {
  import opened SyncModel
  import opened Utf8
  import opened Aad

  /** A string, a 32-bit number, or a decimal that becomes a 64-bit number. */
  datatype Field = Text(s: Utf16) | Word(n: nat) | Long(decimal: string)

  function EncodeField(f: Field): Encoded {
    match f
    case Text(s) => Lp(s)
    case Word(n) => U32(n)
    case Long(s) => U64(s)
  }

  function EncodeAll(fields: seq<Field>): Encoded {
    if fields == [] then Ok([]) else Then(EncodeField(fields[0]), EncodeAll(fields[1..]))
  }

  /******* The layout *******/

  ghost predicate IsWireNumber(s: string) {
    exists n: nat :: n <= MAX_WIRE_BIGINT && s == N.Decimal(n)
  }

  ghost predicate Fits(f: Field) {
    match f
    case Text(s) => WellFormedUtf16(s) && |Encode(s)| <= 0xFFFF_FFFF
    case Word(n) => n <= 0xFFFF_FFFF
    case Long(s) => IsWireNumber(s)
  }

  function Size(f: Field): nat {
    match f
    case Text(s) => 4 + |Encode(s)|
    case Word(_) => 4
    case Long(_) => 8
  }

  function OffsetOf(fields: seq<Field>, k: nat): nat
    requires k <= |fields|
  {
    if k == 0 then 0 else Size(fields[0]) + OffsetOf(fields[1..], k - 1)
  }

  /** The bytes at `o` read as the field: a string behind its length, numbers most significant byte first. */
  ghost predicate StandsAt(bytes: Bytes, o: nat, f: Field) {
    && o + Size(f) <= |bytes|
    && match f
       case Text(s) => Unsigned(bytes[o..o + 4]) == |Encode(s)| && bytes[o + 4..o + 4 + |Encode(s)|] == Encode(s)
       case Word(n) => Unsigned(bytes[o..o + 4]) == n
       case Long(s) => N.Decimal(Unsigned(bytes[o..o + 8])) == s
  }

  /** The fields stand one after another, and nothing else is there. */
  ghost predicate LaidOut(bytes: Bytes, fields: seq<Field>) {
    && |bytes| == OffsetOf(fields, |fields|)
    && forall k :: 0 <= k < |fields| ==> StandsAt(bytes, OffsetOf(fields, k), fields[k])
  }

  lemma {:induction false} DecimalIsCanonical(n: nat)
    ensures Canonical(N.Decimal(n)) && (N.Decimal(n)[0] == '0' ==> n == 0)
  {
    if n >= 10 {
      DecimalIsCanonical(n / 10);
      assert N.Decimal(n)[0] == N.Decimal(n / 10)[0];
    }
  }

  lemma NineteenDigits()
    ensures MAX_WIRE_BIGINT < N.Pow10(19)
  {
    assert N.Pow10(4) == 10_000;
    assert N.Pow10(8) == 10_000 * N.Pow10(4);
    assert N.Pow10(12) == 10_000 * N.Pow10(8);
    assert N.Pow10(16) == 10_000 * N.Pow10(12);
    assert N.Pow10(19) == 1_000 * N.Pow10(16);
  }

  /** Exactly the decimals of the numbers on the wire are accepted. */
  lemma AcceptedDecimals(s: string)
    ensures ParseDecimal(s).Some? <==> IsWireNumber(s)
    ensures ParseDecimal(s).Some? ==> N.Decimal(ParseDecimal(s).value) == s
  {
    if ParseDecimal(s).Some? {
      CanonicalIsDecimal(s);
    }
    if IsWireNumber(s) {
      var n: nat :| n <= MAX_WIRE_BIGINT && s == N.Decimal(n);
      DecimalIsCanonical(n);
      NineteenDigits();
      N.DecimalFits(n, 19);
      N.DecimalReads(n);
    }
  }

  lemma FieldStands(f: Field)
    ensures EncodeField(f).Ok? <==> Fits(f)
    ensures EncodeField(f).Ok? ==> |EncodeField(f).value| == Size(f) && StandsAt(EncodeField(f).value, 0, f)
  {
    Widths();
    match f
    case Text(s) =>
      if Fits(f) {
        BigEndianReads(|Encode(s)|, 4);
        var bytes := Lp(s).value;
        assert bytes[0..4] == BigEndian(|Encode(s)|, 4) && bytes[4..4 + |Encode(s)|] == Encode(s);
      }
    case Word(n) =>
      if Fits(f) {
        BigEndianReads(n, 4);
        assert U32(n).value[0..4] == U32(n).value;
      }
    case Long(s) =>
      AcceptedDecimals(s);
      if ParseDecimal(s).Some? {
        BigEndianReads(ParseDecimal(s).value, 8);
        assert U64(s).value[0..8] == U64(s).value;
      }
  }

  lemma StandsBehind(first: Bytes, rest: Bytes, o: nat, f: Field)
    requires StandsAt(rest, o, f)
    ensures StandsAt(first + rest, |first| + o, f)
  {
    var bytes, p := first + rest, |first| + o;
    assert bytes[p..p + Size(f)] == rest[o..o + Size(f)];
    match f
    case Text(s) =>
      assert bytes[p..p + 4] == rest[o..o + 4];
      assert bytes[p + 4..p + 4 + |Encode(s)|] == rest[o + 4..o + 4 + |Encode(s)|];
    case _ =>
  }

  lemma StandsBefore(first: Bytes, rest: Bytes, f: Field)
    requires StandsAt(first, 0, f)
    ensures StandsAt(first + rest, 0, f)
  {
    var bytes := first + rest;
    assert bytes[0..0 + Size(f)] == first[0..0 + Size(f)];
    match f
    case Text(s) =>
      assert bytes[0..0 + 4] == first[0..0 + 4];
      assert bytes[0 + 4..0 + 4 + |Encode(s)|] == first[0 + 4..0 + 4 + |Encode(s)|];
    case _ =>
  }

  /** Fields can be encoded exactly if each of them fits; they then stand one after another. The
      first that does not fit decides the error. */
  lemma {:induction false} AllLaidOut(fields: seq<Field>)
    ensures EncodeAll(fields).Ok? <==> forall f <- fields :: Fits(f)
    ensures EncodeAll(fields).Ok? ==> LaidOut(EncodeAll(fields).value, fields)
    ensures EncodeAll(fields).Err? ==> exists k: nat :: FailsAt(fields, k, EncodeAll(fields).error)
  {
    if fields != [] {
      var first, rest := fields[0], fields[1..];
      AllLaidOut(rest);
      FieldStands(first);
      assert fields == [first] + rest;
      if EncodeField(first).Err? {
        assert FailsAt(fields, 0, EncodeField(first).error);
      } else if EncodeAll(rest).Err? {
        var k: nat :| FailsAt(rest, k, EncodeAll(rest).error);
        assert fields[k + 1] == rest[k];
        assert forall j :: 0 < j <= k ==> fields[j] == rest[j - 1];
        assert FailsAt(fields, k + 1, EncodeAll(rest).error);
      } else {
        LaidOutBehind(EncodeField(first).value, EncodeAll(rest).value, fields);
      }
    }
  }

  ghost predicate FailsAt(fields: seq<Field>, k: nat, e: AadError) {
    k < |fields| && (forall j :: 0 <= j < k ==> Fits(fields[j])) && EncodeField(fields[k]) == Err(e)
  }

  lemma LaidOutBehind(first: Bytes, rest: Bytes, fields: seq<Field>)
    requires fields != [] && |first| == Size(fields[0]) && StandsAt(first, 0, fields[0]) && LaidOut(rest, fields[1..])
    ensures LaidOut(first + rest, fields)
  {
    hide StandsAt, Size;
    forall k | 0 <= k < |fields|
      ensures StandsAt(first + rest, OffsetOf(fields, k), fields[k])
    {
      if k == 0 {
        StandsBefore(first, rest, fields[0]);
      } else {
        StandsBehind(first, rest, OffsetOf(fields[1..], k - 1), fields[1..][k - 1]);
      }
    }
  }

  /******* The two formats *******/

  function RecordFields(r: RecordInput): seq<Field> {
    [Text(r.format), Word(r.version), Text(r.vaultId), Text(r.recordId), Long(r.revision)]
  }

  function VaultKeyFields(k: VaultKeyInput, algorithm: Utf16): seq<Field> {
    [Text(k.format), Word(k.version), Text(k.vaultId), Long(k.keyRevision), Text(k.kdfAlgorithm), Text(k.salt),
     Long(N.Decimal(k.operationsLimit)), Long(N.Decimal(k.memoryLimit)), Text(algorithm), Text(k.createdAt)]
  }

  lemma OneField(f: Field)
    ensures EncodeAll([f]) == EncodeField(f)
  {
    assert [f][1..] == [];
    assert EncodeField(f).Ok? ==> EncodeField(f).value + [] == EncodeField(f).value;
  }

  lemma FieldsInTurn(fields: seq<Field>, k: nat)
    requires k + 1 < |fields|
    ensures EncodeAll(fields[k..]) == Then(EncodeField(fields[k]), EncodeAll(fields[k + 1..]))
  {
    assert fields[k..][1..] == fields[k + 1..];
  }

  lemma LastField(fields: seq<Field>)
    requires fields != []
    ensures EncodeAll(fields[|fields| - 1..]) == EncodeField(fields[|fields| - 1])
  {
    OneField(fields[|fields| - 1]);
    assert fields[|fields| - 1..] == [fields[|fields| - 1]];
  }

  /** The record data: format, version, vault id, record id, revision. It exists exactly if they fit. */
  lemma RecordLayout(r: RecordInput)
    ensures RecordAad(r).Ok? <==> forall f <- RecordFields(r) :: Fits(f)
    ensures RecordAad(r).Ok? ==> LaidOut(RecordAad(r).value, RecordFields(r))
    ensures RecordAad(r).Err? ==> exists k: nat :: FailsAt(RecordFields(r), k, RecordAad(r).error)
  {
    var fields := RecordFields(r);
    AllLaidOut(fields);
    hide EncodeAll, Lp, U32, U64, Then, LaidOut, Fits, FailsAt;
    FieldsInTurn(fields, 0);
    FieldsInTurn(fields, 1);
    FieldsInTurn(fields, 2);
    FieldsInTurn(fields, 3);
    LastField(fields);
    assert fields[0..] == fields;
  }

  lemma VaultKeyIsFields(k: VaultKeyInput, algorithm: Utf16)
    ensures VaultKeyAad(k, algorithm) == EncodeAll(VaultKeyFields(k, algorithm))
  {
    var fields := VaultKeyFields(k, algorithm);
    KdfIsFields(k, algorithm, fields);
    assert fields[0] == Text(k.format) && fields[1] == Word(k.version);
    assert fields[2] == Text(k.vaultId) && fields[3] == Long(k.keyRevision);
    hide VaultKeyFields, EncodeAll, KdfAad, Lp, U32, U64, Then;
    FieldsInTurn(fields, 0);
    FieldsInTurn(fields, 1);
    FieldsInTurn(fields, 2);
    FieldsInTurn(fields, 3);
    assert fields[0..] == fields;
  }

  lemma KdfIsFields(k: VaultKeyInput, algorithm: Utf16, fields: seq<Field>)
    requires fields == VaultKeyFields(k, algorithm)
    ensures EncodeAll(fields[4..]) == KdfAad(k, algorithm)
  {
    LimitsAreFields(k, algorithm, fields);
    hide EncodeAll, LimitsAad, Lp, U32, U64, Then;
    FieldsInTurn(fields, 4);
    FieldsInTurn(fields, 5);
  }

  lemma LimitsAreFields(k: VaultKeyInput, algorithm: Utf16, fields: seq<Field>)
    requires fields == VaultKeyFields(k, algorithm)
    ensures EncodeAll(fields[6..]) == LimitsAad(k, algorithm)
  {
    hide EncodeAll, Lp, U32, U64, Then;
    FieldsInTurn(fields, 6);
    FieldsInTurn(fields, 7);
    FieldsInTurn(fields, 8);
    LastField(fields);
  }

  /** The vault key data, in the order of its fields. */
  lemma VaultKeyLayout(k: VaultKeyInput, algorithm: Utf16)
    ensures VaultKeyAad(k, algorithm).Ok? <==> forall f <- VaultKeyFields(k, algorithm) :: Fits(f)
    ensures VaultKeyAad(k, algorithm).Ok? ==> LaidOut(VaultKeyAad(k, algorithm).value, VaultKeyFields(k, algorithm))
    ensures VaultKeyAad(k, algorithm).Err? ==>
      exists i: nat :: FailsAt(VaultKeyFields(k, algorithm), i, VaultKeyAad(k, algorithm).error)
  {
    VaultKeyIsFields(k, algorithm);
    AllLaidOut(VaultKeyFields(k, algorithm));
    hide *;
  }
}
