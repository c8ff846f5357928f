/** Which passwords the generator can produce, and by which draws. */
module PasswordReach {
  import opened SyncModel
  import opened Passwords

  /******* The fill *******/

  /** Character `k` of the fill is the one that the `k`-th draw names in its set. */
  lemma {:induction false} FillNamesDraws(sets: seq<string>, draws: Draws, n: nat)
    requires forall k: nat :: k < n ==> PickInRange(sets, draws, k)
    ensures forall k: nat :: k < n ==>
      PickInRange(sets, draws, k) && Filled(sets, draws, n)[k] == SetFor(sets, k)[draws(k)]
  {
    if n > 0 {
      FillNamesDraws(sets, draws, n - 1);
      assert PickInRange(sets, draws, n - 1);
    }
  }

  /** On sets without repetition a fill is filled by one choice of draws only. */
  lemma FillNamesPicks(sets: seq<string>, draws: Draws, other: Draws, n: nat, k: nat)
    requires forall i: nat :: i < n ==> PickInRange(sets, draws, i) && PickInRange(sets, other, i)
    requires Filled(sets, draws, n) == Filled(sets, other, n) && k < n && Distinct(SetFor(sets, k))
    ensures draws(k) == other(k)
  {
    FillNamesDraws(sets, draws, n);
    FillNamesDraws(sets, other, n);
    assert PickInRange(sets, draws, k) && PickInRange(sets, other, k);
  }

  /** Where a character stands in a string that holds it. */
  function PlaceIn(s: string, c: char): (k: int)
    requires c in s
    ensures 0 <= k < |s| && s[k] == c
  {
    if s[0] == c then 0 else 1 + PlaceIn(s[1..], c)
  }

  ghost predicate Fits(sets: seq<string>, s: string) {
    forall k :: 0 <= k < |s| ==> s[k] in SetFor(sets, k)
  }

  /** The draws that fill `s` and then shuffle by `js`. */
  ghost function DrawsFor(sets: seq<string>, s: string, js: seq<int>): Draws
    requires Fits(sets, s) && |js| == |s|
  {
    (n: nat) => if n < |s| then PlaceIn(SetFor(sets, n), s[n])
                else if n < 2 * |s| then js[2 * |s| - 1 - n]
                else 0
  }

  lemma {:induction false} FillIsReached(sets: seq<string>, s: string, js: seq<int>, n: nat)
    requires Fits(sets, s) && |js| == |s| && n <= |s|
    ensures forall k: nat :: k < n ==> PickInRange(sets, DrawsFor(sets, s, js), k)
    ensures Filled(sets, DrawsFor(sets, s, js), n) == s[..n]
  {
    hide SetFor;
    if n > 0 {
      FillIsReached(sets, s, js, n - 1);
      assert s[n - 1] in SetFor(sets, n - 1);
      assert s[..n] == s[..n - 1] + [s[n - 1]];
    }
  }

  lemma SwapsAreDrawn(sets: seq<string>, s: string, js: seq<int>)
    requires Fits(sets, s) && |js| == |s| && s != [] && SwapIndices(js)
    ensures SwapsDrawn(DrawsFor(sets, s, js), |s|, |s|) == js
  {
    var drawn := SwapsDrawn(DrawsFor(sets, s, js), |s|, |s|);
    forall i | 0 <= i < |s|
      ensures drawn[i] == js[i]
    {
    }
  }

  /** Every arrangement of every fill is generated. */
  lemma ArrangementIsGenerated(o: Options, s: string, p: string)
    requires 8 <= o.length <= 256 && CharacterSets(o) != [] && |s| == o.length
    requires Fits(CharacterSets(o), s) && multiset(s) == multiset(p)
    ensures exists draws: Draws :: Generate(o, draws) == Ok(p)
  {
    var sets := CharacterSets(o);
    var js := EveryOrderIsReached(s, p);
    FillIsReached(sets, s, js, |s|);
    SwapsAreDrawn(sets, s, js);
    assert s[..|s|] == s;
    hide Filled, SwapsDrawn, ShuffledBy, SetFor, CharacterSets, Fits;
    assert Generate(o, DrawsFor(sets, s, js)) == Ok(p);
  }

  /******* The character sets *******/

  ghost predicate Apart(sets: seq<string>) {
    forall i, j, c :: 0 <= i < j < |sets| && c in sets[i] ==> c !in sets[j]
  }

  /** A string of consecutive characters. */
  ghost predicate Consecutive(s: string, first: char, last: char) {
    forall k :: 0 <= k < |s| ==> s[k] as int == first as int + k && s[k] <= last
  }

  lemma Letters()
    ensures Consecutive(LOWERCASE, 'a', 'z') && Consecutive(UPPERCASE, 'A', 'Z') && Consecutive(NUMBERS, '0', '9')
  {
  }

  const SOME_SYMBOLS := "!@#$%^&*()-_"
  const OTHER_SYMBOLS := "=+[]{};:,.?"

  lemma SomeDiffer()
    ensures Distinct(SOME_SYMBOLS)
  {
  }

  lemma OthersDiffer()
    ensures Distinct(OTHER_SYMBOLS)
  {
  }

  lemma SymbolsDiffer()
    ensures Distinct(SYMBOLS)
  {
    SomeDiffer();
    OthersDiffer();
    assert SYMBOLS == SOME_SYMBOLS + OTHER_SYMBOLS;
    assert forall j, k :: 0 <= j < |SOME_SYMBOLS| && 0 <= k < |OTHER_SYMBOLS| ==> SOME_SYMBOLS[j] != OTHER_SYMBOLS[k];
  }

  lemma SymbolsAreApart()
    ensures forall c <- SYMBOLS :: !('a' <= c <= 'z') && !('A' <= c <= 'Z') && !('0' <= c <= '9')
  {
  }

  lemma ConsecutiveDiffer(s: string, first: char, last: char)
    requires Consecutive(s, first, last)
    ensures Distinct(s) && forall c <- s :: first <= c <= last
  {
    forall i, j | 0 <= i < j < |s|
      ensures s[i] != s[j]
    {
      assert s[i] as int != s[j] as int;
    }
  }

  predicate Enabled(o: Options, characters: string) {
    || (o.lowercase && characters == LOWERCASE)
    || (o.uppercase && characters == UPPERCASE)
    || (o.numbers && characters == NUMBERS)
    || (o.symbols && characters == SYMBOLS)
  }

  lemma AlphabetsDiffer(a: string, b: string, c: char)
    requires a in [LOWERCASE, UPPERCASE, NUMBERS, SYMBOLS] && b in [LOWERCASE, UPPERCASE, NUMBERS, SYMBOLS]
    requires c in a && c in b
    ensures a == b
  {
    Letters();
    SymbolsAreApart();
    ConsecutiveDiffer(LOWERCASE, 'a', 'z');
    ConsecutiveDiffer(UPPERCASE, 'A', 'Z');
    ConsecutiveDiffer(NUMBERS, '0', '9');
    hide *;
  }

  lemma SetsAre(o: Options)
    ensures forall characters :: characters in CharacterSets(o) <==> Enabled(o, characters)
    ensures |CharacterSets(o)| <= 4
    ensures forall i, j :: 0 <= i < j < |CharacterSets(o)| ==> CharacterSets(o)[i] != CharacterSets(o)[j]
  {
    assert LOWERCASE[0] == 'a' && UPPERCASE[0] == 'A' && NUMBERS[0] == '0' && SYMBOLS[0] == '!';
  }

  /** The character sets in use: those enabled, none twice, with no character in common or repeated. */
  lemma CharacterSetsFit(o: Options)
    ensures forall characters :: characters in CharacterSets(o) <==> Enabled(o, characters)
    ensures |CharacterSets(o)| <= 4 && Apart(CharacterSets(o))
    ensures forall characters <- CharacterSets(o) :: Distinct(characters)
  {
    SetsAre(o);
    Letters();
    SymbolsDiffer();
    ConsecutiveDiffer(LOWERCASE, 'a', 'z');
    ConsecutiveDiffer(UPPERCASE, 'A', 'Z');
    ConsecutiveDiffer(NUMBERS, '0', '9');
    var sets := CharacterSets(o);
    hide CharacterSets, Distinct;
    forall i, j, c | 0 <= i < j < |sets| && c in sets[i]
      ensures c !in sets[j]
    {
      assert Enabled(o, sets[i]) && Enabled(o, sets[j]);
      if c in sets[j] {
        AlphabetsDiffer(sets[i], sets[j], c);
      }
    }
  }

  lemma {:induction false} AllOfIsDistinct(sets: seq<string>)
    requires Apart(sets) && forall characters <- sets :: Distinct(characters)
    ensures Distinct(AllOf(sets))
  {
    if sets != [] {
      var before, last := sets[..|sets| - 1], sets[|sets| - 1];
      assert forall x :: x in before ==> x in sets;
      AllOfIsDistinct(before);
      var all := AllOf(before);
      assert Distinct(last);
      forall c | c in all
        ensures c !in last
      {
        AllOfHas(before, c);
        var j :| 0 <= j < |before| && c in before[j];
        assert c in sets[j];
      }
      assert forall k :: 0 <= k < |all| ==> all[k] in all;
      assert forall k :: 0 <= k < |last| ==> last[k] in last;
    }
  }

  /** Two runs that fill alike have picked alike. */
  lemma FillNamesItsDraws(o: Options, draws: Draws, other: Draws, k: nat)
    requires Generate(o, draws).Ok? && Generate(o, other).Ok? && k < o.length
    requires forall i: nat :: i < o.length ==>
      PickInRange(CharacterSets(o), draws, i) && PickInRange(CharacterSets(o), other, i)
    requires Filled(CharacterSets(o), draws, o.length) == Filled(CharacterSets(o), other, o.length)
    ensures draws(k) == other(k)
  {
    CharacterSetsFit(o);
    var sets := CharacterSets(o);
    hide CharacterSets, Generate;
    AllOfIsDistinct(sets);
    assert k < |sets| ==> sets[k] in sets;
    FillNamesPicks(sets, draws, other, o.length, k);
  }

  /******* The passwords *******/

  /** Length as asked, enabled characters only, and one of each enabled set. */
  ghost predicate IsPassword(o: Options, p: string) {
    && |p| == o.length
    && (forall c <- p :: exists characters :: Enabled(o, characters) && c in characters)
    && (forall characters :: Enabled(o, characters) ==> SomeIn(p, characters))
  }

  lemma {:induction false} SeqOf(m: multiset<char>) returns (s: string)
    ensures multiset(s) == m
    decreases |m|
  {
    if m == multiset{} {
      s := "";
    } else {
      var c :| c in m;
      var rest := SeqOf(m - multiset{c});
      s := rest + [c];
    }
  }

  lemma {:induction false} Picks(sets: seq<string>, p: string) returns (picks: string)
    requires Apart(sets) && forall characters <- sets :: SomeIn(p, characters)
    ensures |picks| == |sets| && forall k :: 0 <= k < |sets| ==> picks[k] in sets[k]
    ensures multiset(picks) <= multiset(p)
  {
    if sets == [] {
      picks := "";
    } else {
      var before, last := sets[..|sets| - 1], sets[|sets| - 1];
      assert forall x :: x in before ==> x in sets;
      var some := Picks(before, p);
      assert SomeIn(p, last);
      var k :| 0 <= k < |p| && p[k] in last;
      picks := some + [p[k]];
      forall j | 0 <= j < |some|
        ensures some[j] != p[k]
      {
        assert some[j] in sets[j];
      }
      OneMorePicked(some, p, p[k]);
    }
  }

  lemma OneMorePicked(some: string, p: string, c: char)
    requires multiset(some) <= multiset(p) && c in p && c !in some
    ensures multiset(some + [c]) <= multiset(p)
  {
    assert multiset(some)[c] == 0 && multiset(p)[c] >= 1;
  }

  /** A password can be put in an order in which the fill could have made it. */
  lemma Arranged(sets: seq<string>, p: string) returns (s: string)
    requires Apart(sets) && forall characters <- sets :: SomeIn(p, characters)
    requires forall c <- p :: InSome(sets, c)
    ensures multiset(s) == multiset(p) && Fits(sets, s)
  {
    var picks := Picks(sets, p);
    var rest := SeqOf(multiset(p) - multiset(picks));
    s := picks + rest;
    forall k | 0 <= k < |s|
      ensures s[k] in SetFor(sets, k)
    {
      if k >= |sets| {
        assert s[k] in multiset(rest) && s[k] in multiset(p) && s[k] in p;
        AllOfHas(sets, s[k]);
      }
    }
  }

  /** Exactly these are generated: for each there are draws that give it, and no draws give another. */
  lemma PasswordsExactly(o: Options, p: string)
    ensures (exists draws: Draws :: Generate(o, draws) == Ok(p)) <==>
            && 8 <= o.length <= 256
            && (o.lowercase || o.uppercase || o.numbers || o.symbols)
            && IsPassword(o, p)
  {
    CharacterSetsFit(o);
    var sets := CharacterSets(o);
    if draws: Draws :| Generate(o, draws) == Ok(p) {
      GeneratesExactly(o, draws);
      PasswordIsWellFormed(o, draws);
      hide Generate, CharacterSets;
      EnabledOnly(o, p);
    }
    if 8 <= o.length <= 256 && (o.lowercase || o.uppercase || o.numbers || o.symbols) && IsPassword(o, p) {
      assert sets != [];
      hide CharacterSets, Enabled;
      EnabledAreInSome(o, p);
      var s := Arranged(sets, p);
      SameSize(s, p);
      ArrangementIsGenerated(o, s, p);
    }
  }

  lemma EnabledOnly(o: Options, p: string)
    requires |p| == o.length && forall c <- p :: InSome(CharacterSets(o), c)
    requires forall characters <- CharacterSets(o) :: SomeIn(p, characters)
    requires forall characters :: characters in CharacterSets(o) <==> Enabled(o, characters)
    ensures IsPassword(o, p)
  {
    forall c | c in p
      ensures exists characters :: Enabled(o, characters) && c in characters
    {
      var j :| 0 <= j < |CharacterSets(o)| && c in CharacterSets(o)[j];
      assert CharacterSets(o)[j] in CharacterSets(o);
    }
    hide CharacterSets;
  }

  lemma EnabledAreInSome(o: Options, p: string)
    requires IsPassword(o, p)
    requires forall characters :: characters in CharacterSets(o) <==> Enabled(o, characters)
    ensures forall c <- p :: InSome(CharacterSets(o), c)
    ensures forall characters <- CharacterSets(o) :: SomeIn(p, characters)
  {
    hide CharacterSets, Enabled;
    forall c | c in p
      ensures InSome(CharacterSets(o), c)
    {
      var characters :| Enabled(o, characters) && c in characters;
      assert characters in CharacterSets(o);
    }
  }
}
