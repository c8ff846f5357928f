/** The password generator: fill, then shuffle in place, with indices from a random source. */
module Passwords {
  import opened SyncModel

  const LOWERCASE := "abcdefghijklmnopqrstuvwxyz"
  const UPPERCASE := "ABCDEFGHIJKLMNOPQRSTUVWXYZ"
  const NUMBERS := "0123456789"
  const SYMBOLS := "!@#$%^&*()-_=+[]{};:,.?"

  datatype PasswordError = BadLength | NoCharacterSet | BadIndex

  datatype Options = Options(length: int, lowercase: bool, uppercase: bool, numbers: bool, symbols: bool)

  /** What the random source answers to its first, second, ... call. The bound that it is asked
      for follows from the number of the call. */
  type Draws = nat -> int

  function CharacterSets(o: Options): seq<string> {
    (if o.lowercase then [LOWERCASE] else []) +
    (if o.uppercase then [UPPERCASE] else []) +
    (if o.numbers then [NUMBERS] else []) +
    (if o.symbols then [SYMBOLS] else [])
  }

  function AllOf(sets: seq<string>): string {
    if sets == [] then "" else AllOf(sets[..|sets| - 1]) + sets[|sets| - 1]
  }

  /** The set that character `n` is picked from: one from each set, the others from all. */
  function SetFor(sets: seq<string>, n: nat): string {
    if n < |sets| then sets[n] else AllOf(sets)
  }

  predicate PickInRange(sets: seq<string>, draws: Draws, n: nat) {
    0 <= draws(n) < |SetFor(sets, n)|
  }

  /** The first `n` characters. */
  function Filled(sets: seq<string>, draws: Draws, n: nat): (s: string)
    requires forall k: nat :: k < n ==> PickInRange(sets, draws, k)
    ensures |s| == n
  {
    if n == 0 then ""
    else
      assert PickInRange(sets, draws, n - 1);
      Filled(sets, draws, n - 1) + [SetFor(sets, n - 1)[draws(n - 1)]]
  }

  /******* The shuffle *******/

  /** Entry `i` is the index that position `i` is swapped with. */
  predicate SwapIndices(js: seq<int>) {
    forall i :: 0 <= i < |js| ==> 0 <= js[i] <= i
  }

  /** What is below the last position once that one is swapped with position `j`. */
  function Rest<T>(s: seq<T>, j: int): (r: seq<T>)
    requires 0 <= j < |s|
    ensures |r| == |s| - 1
  {
    var n := |s| - 1;
    if j == n then s[..n] else s[..n][j := s[n]]
  }

  /** From the last position down to the second: each is swapped with its index. */
  function ShuffledBy<T>(s: seq<T>, js: seq<int>): (r: seq<T>)
    requires |js| == |s| && SwapIndices(js)
    ensures |r| == |s|
    decreases |s|
  {
    if s == [] then []
    else
      var n := |s| - 1;
      ShuffledBy(Rest(s, js[n]), js[..n]) + [s[js[n]]]
  }

  /** The indices drawn for `n` positions, beginning with call `call`; the first position needs none. */
  function SwapsDrawn(draws: Draws, call: nat, n: nat): (js: seq<int>)
    ensures |js| == n
  {
    seq(n, i requires 0 <= i < n => if i == 0 then 0 else draws(call + n - 1 - i))
  }

  function Generate(o: Options, draws: Draws): Result<string, PasswordError> {
    var sets := CharacterSets(o);
    if o.length < 8 || o.length > 256 then Err(BadLength)
    else if sets == [] then Err(NoCharacterSet)
    else if !(forall k: nat :: k < o.length ==> PickInRange(sets, draws, k)) then Err(BadIndex)
    else
      var js := SwapsDrawn(draws, o.length, o.length);
      if !SwapIndices(js) then Err(BadIndex) else Ok(ShuffledBy(Filled(sets, draws, o.length), js))
  }

  /******* What a password is made of *******/

  lemma {:induction false} FilledHas(sets: seq<string>, draws: Draws, n: nat)
    requires forall k: nat :: k < n ==> PickInRange(sets, draws, k)
    ensures forall k :: 0 <= k < n ==> Filled(sets, draws, n)[k] in SetFor(sets, k)
  {
    if n > 0 {
      FilledHas(sets, draws, n - 1);
      assert PickInRange(sets, draws, n - 1);
    }
  }

  ghost predicate InSome(sets: seq<string>, c: char) {
    exists j :: 0 <= j < |sets| && c in sets[j]
  }

  ghost predicate SomeIn(s: string, characters: string) {
    exists k :: 0 <= k < |s| && s[k] in characters
  }

  lemma {:induction false} AllOfHas(sets: seq<string>, c: char)
    ensures c in AllOf(sets) <==> InSome(sets, c)
  {
    if sets != [] {
      var before := sets[..|sets| - 1];
      AllOfHas(before, c);
      if InSome(sets, c) {
        var j :| 0 <= j < |sets| && c in sets[j];
        assert j < |before| ==> c in before[j];
      }
    }
  }

  lemma RestAndLast<T>(s: seq<T>, j: int)
    requires 0 <= j < |s|
    ensures multiset(s) == multiset(Rest(s, j)) + multiset{s[j]}
  {
    var n := |s| - 1;
    assert s == s[..n] + [s[n]];
  }

  lemma {:induction false} ShuffledKeeps<T>(s: seq<T>, js: seq<int>)
    requires |js| == |s| && SwapIndices(js)
    ensures multiset(ShuffledBy(s, js)) == multiset(s)
    decreases |s|
  {
    if s != [] {
      var n := |s| - 1;
      ShuffledKeeps(Rest(s, js[n]), js[..n]);
      RestAndLast(s, js[n]);
    }
  }

  /** Reordering changes neither what occurs nor which sets are met. */
  lemma ReorderedHas(s: string, t: string, c: char)
    requires multiset(s) == multiset(t) && c in s
    ensures c in t
  {
    assert c in multiset(s);
  }

  lemma ReorderedIsWellFormed(sets: seq<string>, filled: string, password: string)
    requires multiset(password) == multiset(filled) && |sets| <= |filled|
    requires forall k :: 0 <= k < |filled| ==> filled[k] in SetFor(sets, k)
    ensures forall c <- password :: InSome(sets, c)
    ensures forall characters <- sets :: SomeIn(password, characters)
  {
    forall c | c in password
      ensures InSome(sets, c)
    {
      ReorderedHas(password, filled, c);
      AllOfHas(sets, c);
    }
    forall j | 0 <= j < |sets|
      ensures SomeIn(password, sets[j])
    {
      ReorderedHas(filled, password, filled[j]);
    }
  }

  /** A password has the requested length, only enabled characters, and one of each enabled set. */
  lemma PasswordIsWellFormed(o: Options, draws: Draws)
    ensures var p := Generate(o, draws); p.Ok? ==>
      && |p.value| == o.length
      && (forall c <- p.value :: InSome(CharacterSets(o), c))
      && (forall characters <- CharacterSets(o) :: SomeIn(p.value, characters))
  {
    var p := Generate(o, draws);
    if p.Ok? {
      var sets := CharacterSets(o);
      var filled := Filled(sets, draws, o.length);
      FilledHas(sets, draws, o.length);
      ShuffledKeeps(filled, SwapsDrawn(draws, o.length, o.length));
      hide *;
      ReorderedIsWellFormed(sets, filled, p.value);
    }
  }

  /** The upper bound that call `n` asks for: a character set first, then each position and those below it. */
  function Bound(o: Options, n: nat): int {
    if n < o.length then |SetFor(CharacterSets(o), n)| else 2 * o.length - n
  }

  ghost predicate DrawInRange(o: Options, draws: Draws, n: nat) {
    0 <= draws(n) < Bound(o, n)
  }

  /** A password is generated exactly if the length is in bounds, a set is enabled, and every index
      drawn is below the bound it was asked for. */
  lemma GeneratesExactly(o: Options, draws: Draws)
    ensures Generate(o, draws).Ok? <==>
            && 8 <= o.length <= 256
            && (o.lowercase || o.uppercase || o.numbers || o.symbols)
            && forall n: nat :: n < 2 * o.length - 1 ==> DrawInRange(o, draws, n)
  {
    if 8 <= o.length <= 256 && CharacterSets(o) != [] {
      assert forall n: nat :: n < o.length ==> (DrawInRange(o, draws, n) <==> PickInRange(CharacterSets(o), draws, n));
      var js := SwapsDrawn(draws, o.length, o.length);
      if SwapIndices(js) {
        forall n: nat | o.length <= n < 2 * o.length - 1
          ensures DrawInRange(o, draws, n)
        {
          assert js[2 * o.length - 1 - n] == draws(n);
        }
      }
      if forall n: nat :: n < 2 * o.length - 1 ==> DrawInRange(o, draws, n) {
        forall i | 0 <= i < o.length
          ensures 0 <= js[i] <= i
        {
          assert i > 0 ==> DrawInRange(o, draws, 2 * o.length - 1 - i);
        }
      }
    }
  }

  /******* As the program runs it *******/

  method GeneratePassword(o: Options, draws: Draws) returns (r: Result<string, PasswordError>)
    ensures r == Generate(o, draws)
  {
    if o.length < 8 || o.length > 256 {
      return Err(BadLength);
    }
    var sets := CharacterSets(o);
    if sets == [] {
      return Err(NoCharacterSet);
    }
    var result := new char[o.length](_ => ' ');
    var ok := Fill(result, sets, draws);
    if !ok {
      return Err(BadIndex);
    }
    hide ShuffledBy, Filled, SwapsDrawn, SwapIndices;
    ok := Shuffle(result, draws, result.Length);
    return if ok then Ok(result[..]) else Err(BadIndex);
  }

  method Fill(a: array<char>, sets: seq<string>, draws: Draws) returns (ok: bool)
    modifies a
    ensures ok == forall k: nat :: k < a.Length ==> PickInRange(sets, draws, k)
    ensures ok ==> a[..] == Filled(sets, draws, a.Length)
  {
    var all := AllOf(sets);
    for n := 0 to a.Length
      invariant forall k: nat :: k < n ==> PickInRange(sets, draws, k)
      invariant a[..n] == Filled(sets, draws, n)
    {
      var characters := if n < |sets| then sets[n] else all;
      var index := draws(n);
      if index < 0 || index >= |characters| {
        assert !PickInRange(sets, draws, n);
        return false;
      }
      a[n] := characters[index];
      assert a[..n + 1] == a[..n] + [a[n]];
    }
    assert a[..] == a[..a.Length];
    return true;
  }

  /** One turn: what is left to do is the shuffle of the positions below. */
  lemma ShuffleTurn(s: string, t: string, js: seq<int>, index: nat)
    requires index < |s| && |js| == |s| && SwapIndices(js)
    requires t == s[index := s[js[index]]][js[index] := s[index]]
    ensures ShuffledBy(s[..index + 1], js[..index + 1]) + s[index + 1..] ==
            ShuffledBy(t[..index], js[..index]) + t[index..]
  {
    var x, y := s[..index + 1], js[..index + 1];
    assert Rest(x, y[index]) == t[..index];
    assert y[..index] == js[..index];
    var below := ShuffledBy(t[..index], js[..index]);
    assert t[index..] == [t[index]] + s[index + 1..];
    assert (below + [t[index]]) + s[index + 1..] == below + ([t[index]] + s[index + 1..]);
  }

  /** Shuffling the first `k` positions of `now` finishes the shuffle of `was`. */
  ghost predicate Toward(was: string, now: string, js: seq<int>, k: nat)
    requires |was| == |now| == |js| && k <= |js|
  {
    SwapIndices(js) ==> ShuffledBy(was, js) == ShuffledBy(now[..k], js[..k]) + now[k..]
  }

  lemma TowardStarts(was: string, js: seq<int>)
    requires |was| == |js|
    ensures Toward(was, was, js, |was|)
  {
    assert was[..|was|] == was && js[..|was|] == js && was[|was|..] == "";
  }

  lemma TowardTurn(was: string, s: string, t: string, js: seq<int>, index: nat)
    requires |was| == |s| == |js| && index < |s| && 0 <= js[index] <= index
    requires t == s[index := s[js[index]]][js[index] := s[index]]
    requires Toward(was, s, js, index + 1)
    ensures Toward(was, t, js, index)
  {
    if SwapIndices(js) {
      ShuffleTurn(s, t, js, index);
    }
  }

  lemma TowardEnds(was: string, now: string, js: seq<int>, k: nat)
    requires |was| == |now| == |js| && k <= |js| && k <= 1 && Toward(was, now, js, k) && SwapIndices(js)
    ensures now == ShuffledBy(was, js)
  {
    if k == 1 {
      ShuffleTurn(now, now, js, 0);
      assert now[..0 + 1] == now[..k] && js[..0 + 1] == js[..k] && now[0 + 1..] == now[k..];
    }
    assert now[..0] == "" && js[..0] == [] && "" + now[0..] == now;
    hide SwapIndices;
  }

  method Shuffle(a: array<char>, draws: Draws, call: nat) returns (ok: bool)
    modifies a
    ensures ok == SwapIndices(SwapsDrawn(draws, call, a.Length))
    ensures ok ==> a[..] == ShuffledBy(old(a[..]), SwapsDrawn(draws, call, a.Length))
  {
    hide ShuffledBy, Toward;
    ghost var js := SwapsDrawn(draws, call, a.Length);
    ghost var was := a[..];
    var index := a.Length - 1;
    TowardStarts(was, js);
    while index > 0
      invariant -1 <= index < a.Length
      invariant forall i :: index < i < a.Length ==> 0 <= js[i] <= i
      invariant Toward(was, a[..], js, index + 1)
    {
      var swapIndex := draws(call + a.Length - 1 - index);
      assert js[index] == swapIndex;
      if swapIndex < 0 || swapIndex > index {
        return false;
      }
      ghost var before := a[..];
      a[index], a[swapIndex] := a[swapIndex], a[index];
      TowardTurn(was, before, a[..], js, index);
      index := index - 1;
    }
    TowardEnds(was, a[..], js, index + 1);
    return true;
  }

  /******* Every order exactly once *******/

  ghost predicate Distinct<T(!new)>(s: seq<T>) {
    forall i, j :: 0 <= i < j < |s| ==> s[i] != s[j]
  }

  lemma RestIsDistinct<T(!new)>(s: seq<T>, j: int)
    requires 0 <= j < |s| && Distinct(s)
    ensures Distinct(Rest(s, j))
  {
  }

  lemma LastIsSwapped<T>(s: seq<T>, js: seq<int>)
    requires |js| == |s| && SwapIndices(js) && s != []
    ensures var n := |s| - 1;
      && ShuffledBy(s, js)[n] == s[js[n]]
      && ShuffledBy(s, js)[..n] == ShuffledBy(Rest(s, js[n]), js[..n])
  {
  }

  /** On distinct entries, different swap indices give different orders. */
  lemma {:induction false} OrderNamesSwaps<T(!new)>(s: seq<T>, js: seq<int>, ks: seq<int>)
    requires |js| == |s| == |ks| && SwapIndices(js) && SwapIndices(ks)
    requires Distinct(s) && ShuffledBy(s, js) == ShuffledBy(s, ks)
    ensures js == ks
    decreases |s|
  {
    hide ShuffledBy;
    if s != [] {
      var n := |s| - 1;
      LastIsSwapped(s, js);
      LastIsSwapped(s, ks);
      assert js[n] == ks[n];
      var rest := Rest(s, js[n]);
      RestIsDistinct(s, js[n]);
      OrderNamesSwaps(rest, js[..n], ks[..n]);
      assert js == js[..n] + [js[n]] && ks == ks[..n] + [ks[n]];
    }
  }

  lemma Cancelled<T>(a: multiset<T>, b: multiset<T>, x: T)
    requires a + multiset{x} == b + multiset{x}
    ensures a == b
  {
    assert a == (a + multiset{x}) - multiset{x};
    assert b == (b + multiset{x}) - multiset{x};
  }

  lemma ShuffledMore<T>(s: seq<T>, js: seq<int>, j: int)
    requires s != [] && |js| == |s| - 1 && SwapIndices(js) && 0 <= j < |s|
    ensures SwapIndices(js + [j]) && ShuffledBy(s, js + [j]) == ShuffledBy(Rest(s, j), js) + [s[j]]
  {
    assert (js + [j])[..|js|] == js;
  }

  lemma SameSize<T>(s: seq<T>, t: seq<T>)
    requires multiset(s) == multiset(t)
    ensures |s| == |t|
  {
    assert |s| == |multiset(s)| == |multiset(t)| == |t|;
  }

  /** Where the entry that comes last is now. */
  lemma PlaceOfLast<T>(s: seq<T>, order: seq<T>) returns (j: nat)
    requires multiset(s) == multiset(order) && s != [] && |s| == |order|
    ensures j < |s| && s[j] == order[|s| - 1] && multiset(Rest(s, j)) == multiset(order[..|s| - 1])
  {
    var n := |s| - 1;
    assert order[n] in multiset(s);
    j :| j < |s| && s[j] == order[n];
    RestAndLast(s, j);
    RestAndLast(order, n);
    Cancelled(multiset(Rest(s, j)), multiset(order[..n]), s[j]);
  }

  /** Every order is reached: with the lemma above, each order by exactly one choice of indices. */
  lemma {:induction false} EveryOrderIsReached<T(!new)>(s: seq<T>, order: seq<T>) returns (js: seq<int>)
    requires multiset(s) == multiset(order)
    ensures |js| == |s| && SwapIndices(js) && ShuffledBy(s, js) == order
    decreases |s|
  {
    SameSize(s, order);
    if s == [] {
      js := [];
    } else {
      hide ShuffledBy, Rest;
      var j := PlaceOfLast(s, order);
      var rest := EveryOrderIsReached(Rest(s, j), order[..|s| - 1]);
      js := rest + [j];
      ShuffledMore(s, rest, j);
      assert order == order[..|s| - 1] + [order[|s| - 1]];
    }
  }

  /******* Rejection sampling *******/

  const RANGE: nat := 0x1_0000_0000

  /** Candidates from here on are drawn again. */
  function Limit(upperBound: nat): nat
    requires upperBound > 0
  {
    RANGE - RANGE % upperBound
  }

  /** The accepted candidates that give an index. */
  function Giving(index: nat, upperBound: nat, below: nat): set<nat>
    requires upperBound > 0
  {
    set c: nat | c < below && c % upperBound == index
  }

  lemma NextBlock(q: nat, upperBound: nat, c: nat)
    requires upperBound * q <= c < upperBound * q + upperBound
    ensures c % upperBound == c - upperBound * q
  {
    assert c == upperBound * q + (c - upperBound * q);
    Remainder(q, upperBound, c - upperBound * q);
  }

  lemma Scaled(m: nat, d: nat)
    requires d >= 1
    ensures m * d >= m
  {
  }

  lemma Distributed(m: int, a: int, b: int)
    ensures m * (a - b) == m * a - m * b
  {
  }

  /** A quotient and a remainder are what division gives. */
  lemma Remainder(q: nat, m: nat, r: nat)
    requires r < m
    ensures (m * q + r) % m == r && (m * q + r) / m == q
  {
    var x := m * q + r;
    var d := x / m - q;
    Distributed(m, x / m, q);
    assert m * d == r - x % m;
    if d >= 1 {
      Scaled(m, d);
    } else if d <= -1 {
      Scaled(m, -d);
      Distributed(m, 0, d);
    }
  }

  /** The next block of candidates has one more that gives the index. */
  lemma GivingOneMore(index: nat, upperBound: nat, before: nat, q: nat)
    requires index < upperBound && before == upperBound * q
    ensures Giving(index, upperBound, before + upperBound) == Giving(index, upperBound, before) + {before + index}
    ensures before + index !in Giving(index, upperBound, before)
  {
    forall c: nat | before <= c < before + upperBound
      ensures c % upperBound == index <==> c == before + index
    {
      NextBlock(q, upperBound, c);
    }
  }

  lemma {:induction false} BlocksGiveOneEach(index: nat, upperBound: nat, q: nat)
    requires index < upperBound
    ensures |Giving(index, upperBound, upperBound * q)| == q
  {
    if q > 0 {
      BlocksGiveOneEach(index, upperBound, q - 1);
      var before := upperBound * (q - 1);
      assert upperBound * q == before + upperBound;
      GivingOneMore(index, upperBound, before, q - 1);
    } else {
      assert Giving(index, upperBound, 0) == {};
    }
  }

  /** Fairness: every index below the bound has equally many accepted 32-bit candidates, namely
      `Limit / upperBound`, and the limit leaves out fewer candidates than the bound. */
  lemma EveryIndexIsEquallyLikely(index: nat, upperBound: nat)
    requires index < upperBound <= RANGE
    ensures |Giving(index, upperBound, Limit(upperBound))| == Limit(upperBound) / upperBound
    ensures RANGE - upperBound < Limit(upperBound) <= RANGE
  {
    var q := RANGE / upperBound;
    assert RANGE == upperBound * q + RANGE % upperBound;
    BlocksGiveOneEach(index, upperBound, q);
    Remainder(q, upperBound, 0);
    assert Limit(upperBound) == upperBound * q + 0;
  }

  ghost predicate FirstAccepted(candidates: seq<nat>, upperBound: nat, k: nat)
    requires upperBound > 0
  {
    && k < |candidates| && candidates[k] < Limit(upperBound)
    && forall j :: 0 <= j < k ==> candidates[j] >= Limit(upperBound)
  }

  /** Draws until a candidate is below the limit. `candidates` is what the system source delivers;
      when it is used up the loop is still drawing. */
  method SecureRandomIndex(upperBound: nat, candidates: seq<nat>) returns (index: Option<nat>)
    requires 0 < upperBound <= RANGE && forall c <- candidates :: c < RANGE
    ensures index.None? <==> forall c <- candidates :: c >= Limit(upperBound)
    ensures index.Some? ==>
      exists k: nat :: FirstAccepted(candidates, upperBound, k) && index.value == candidates[k] % upperBound
  {
    var limit := RANGE - RANGE % upperBound;
    for k := 0 to |candidates|
      invariant forall j :: 0 <= j < k ==> candidates[j] >= limit
    {
      var candidate := candidates[k];
      if candidate < limit {
        assert candidate in candidates && FirstAccepted(candidates, upperBound, k);
        return Some(candidate % upperBound);
      }
    }
    return None;
  }
}
