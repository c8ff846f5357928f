/** The names of journal snapshots: twelve decimal digits, so that name order is numeric order. */
module JournalNames {

  const PREFIX := "vault-"
  const SUFFIX := ".svrgn"
  const WIDTH := 12
  const LAST_NUMBER: nat := 999_999_999_999

  predicate IsDigit(c: char) {
    '0' <= c <= '9'
  }

  predicate AllDigits(s: string) {
    forall k :: 0 <= k < |s| ==> IsDigit(s[k])
  }

  function DigitValue(c: char): (d: nat)
    requires IsDigit(c)
    ensures d <= 9
  {
    c as int - '0' as int
  }

  function DigitOf(d: nat): (c: char)
    requires d <= 9
    ensures IsDigit(c) && DigitValue(c) == d
  {
    ('0' as int + d) as char
  }

  /** Reads digits after a number that was read before them. */
  function Value(s: string, before: nat): nat
    requires AllDigits(s)
  {
    if s == "" then before else Value(s[1..], 10 * before + DigitValue(s[0]))
  }

  function Decimal(n: nat): (s: string)
    ensures AllDigits(s) && s != ""
  {
    if n < 10 then [DigitOf(n)] else Decimal(n / 10) + [DigitOf(n % 10)]
  }

  function PadStart(s: string, width: nat): string
    decreases width - |s|
  {
    if |s| >= width then s else PadStart("0" + s, width)
  }

  /** Order of strings by code units, as a plain sort uses it. */
  predicate Less(a: string, b: string) {
    b != "" && (a == "" || a[0] < b[0] || (a[0] == b[0] && Less(a[1..], b[1..])))
  }

  predicate IsEntry(name: string) {
    && |name| == 24
    && name[..6] == PREFIX
    && name[18..] == SUFFIX
    && AllDigits(name[6..18])
  }

  function NumberOf(name: string): nat
    requires IsEntry(name)
  {
    Value(name[6..18], 0)
  }

  function EntryName(n: nat): string {
    PREFIX + PadStart(Decimal(n), WIDTH) + SUFFIX
  }

  function PendingName(n: nat): string {
    EntryName(n) + ".pending"
  }

  lemma {:induction false} LaterDigitsCannotCatchUp(s: string, before: nat, t: string, more: nat)
    requires AllDigits(s) && AllDigits(t) && |s| == |t| && before < more
    ensures Value(s, before) < Value(t, more)
  {
    if s != "" {
      LaterDigitsCannotCatchUp(s[1..], 10 * before + DigitValue(s[0]), t[1..], 10 * more + DigitValue(t[0]));
    }
  }

  /** Among numbers with equally many digits, name order is numeric order. */
  lemma {:induction false} DigitsOrder(s: string, t: string, before: nat)
    requires AllDigits(s) && AllDigits(t) && |s| == |t|
    ensures Less(s, t) <==> Value(s, before) < Value(t, before)
    ensures Value(s, before) == Value(t, before) <==> s == t
  {
    if s != "" {
      var x, y := 10 * before + DigitValue(s[0]), 10 * before + DigitValue(t[0]);
      if x < y {
        LaterDigitsCannotCatchUp(s[1..], x, t[1..], y);
      } else if y < x {
        LaterDigitsCannotCatchUp(t[1..], y, s[1..], x);
      } else {
        assert s[0] == t[0];
        DigitsOrder(s[1..], t[1..], x);
        assert s == [s[0]] + s[1..] && t == [t[0]] + t[1..];
      }
    }
  }

  lemma {:induction false} LessAfterPrefix(prefix: string, s: string, t: string)
    ensures Less(prefix + s, prefix + t) <==> Less(s, t)
  {
    if prefix == "" {
      assert prefix + s == s && prefix + t == t;
    } else {
      LessAfterPrefix(prefix[1..], s, t);
      assert (prefix + s)[1..] == prefix[1..] + s && (prefix + t)[1..] == prefix[1..] + t;
    }
  }

  lemma {:induction false} LessBeforeSuffix(s: string, t: string, suffix: string)
    requires |s| == |t|
    ensures Less(s + suffix, t + suffix) <==> Less(s, t)
  {
    if s == "" {
      assert s + suffix == suffix && t + suffix == suffix;
      LessIrreflexive(suffix);
    } else {
      LessBeforeSuffix(s[1..], t[1..], suffix);
      assert (s + suffix)[1..] == s[1..] + suffix && (t + suffix)[1..] == t[1..] + suffix;
    }
  }

  lemma {:induction false} LessIrreflexive(s: string)
    ensures !Less(s, s)
  {
    if s != "" {
      LessIrreflexive(s[1..]);
    }
  }

  lemma EntryParts(name: string)
    requires IsEntry(name)
    ensures name == PREFIX + (name[6..18] + SUFFIX)
  {
  }

  /** The order in which snapshot names sort is the order of their numbers. */
  lemma NameOrderIsNumeric(a: string, b: string)
    requires IsEntry(a) && IsEntry(b)
    ensures Less(a, b) <==> NumberOf(a) < NumberOf(b)
    ensures NumberOf(a) == NumberOf(b) <==> a == b
  {
    EntryParts(a);
    EntryParts(b);
    LessAfterPrefix(PREFIX, a[6..18] + SUFFIX, b[6..18] + SUFFIX);
    LessBeforeSuffix(a[6..18], b[6..18], SUFFIX);
    DigitsOrder(a[6..18], b[6..18], 0);
  }

  lemma {:induction false} ValueOfLonger(s: string, c: char, before: nat)
    requires AllDigits(s) && IsDigit(c)
    ensures Value(s + [c], before) == 10 * Value(s, before) + DigitValue(c)
  {
    if s != "" {
      assert (s + [c])[1..] == s[1..] + [c];
      ValueOfLonger(s[1..], c, 10 * before + DigitValue(s[0]));
    } else {
      assert (s + [c])[1..] == "";
    }
  }

  lemma {:induction false} DecimalReads(n: nat)
    ensures Value(Decimal(n), 0) == n
  {
    if n >= 10 {
      DecimalReads(n / 10);
      ValueOfLonger(Decimal(n / 10), DigitOf(n % 10), 0);
    } else {
      assert Decimal(n)[1..] == "";
    }
  }

  function Pow10(k: nat): nat {
    if k == 0 then 1 else 10 * Pow10(k - 1)
  }

  lemma {:induction false} DecimalFits(n: nat, k: nat)
    requires k > 0 && n < Pow10(k)
    ensures |Decimal(n)| <= k
  {
    if n >= 10 {
      assert k > 1 by {
        assert Pow10(1) == 10 * Pow10(0);
      }
      DecimalFits(n / 10, k - 1);
    }
  }

  lemma {:induction false} PadStartKeeps(s: string, width: nat)
    requires AllDigits(s)
    ensures AllDigits(PadStart(s, width)) && Value(PadStart(s, width), 0) == Value(s, 0)
    ensures |PadStart(s, width)| == if |s| > width then |s| else width
    decreases width - |s|
  {
    if |s| < width {
      assert ("0" + s)[1..] == s;
      PadStartKeeps("0" + s, width);
    }
  }

  lemma TwelveDigits()
    ensures Pow10(12) == LAST_NUMBER + 1
  {
    assert Pow10(4) == 10000;
    assert Pow10(8) == 10000 * Pow10(4);
    assert Pow10(12) == 10000 * Pow10(8);
  }

  /** The name given to a number is a snapshot name, and reads back as that number. */
  lemma EntryNameReads(n: nat)
    requires n <= LAST_NUMBER
    ensures IsEntry(EntryName(n)) && NumberOf(EntryName(n)) == n
    ensures !IsEntry(PendingName(n))
  {
    TwelveDigits();
    DecimalFits(n, WIDTH);
    DecimalReads(n);
    PadStartKeeps(Decimal(n), WIDTH);
    var digits := PadStart(Decimal(n), WIDTH);
    assert EntryName(n)[..6] == PREFIX && EntryName(n)[6..18] == digits && EntryName(n)[18..] == SUFFIX;
  }
}
