/** Duplicate marking and applying of a password import.

  `key` names a login by its address and user name; it stands for URL parsing, and has no
  value where the address does not parse.
 */
module CsvImport {
  import opened SyncModel

  type Key = string

  type KeyOf = (string, string) -> Option<Key>

  datatype Login = Login(website: string, username: string, other: string)

  /** A data row with its columns picked out; `problem` says why it cannot be imported. */
  datatype Candidate = Candidate(rowNumber: nat, login: Login, problem: Option<string>)

  datatype DuplicateSource = InVault | InFile

  datatype Marked = Marked(candidate: Candidate, duplicate: Option<DuplicateSource>)

  datatype Preview = Preview(rows: seq<Marked>, invalid: seq<Candidate>)

  datatype Strategy = Skip | ImportAll

  function LoginKey(key: KeyOf, login: Login): Option<Key> {
    key(login.website, login.username)
  }

  function Keys(key: KeyOf, logins: seq<Login>): set<Key> {
    set k | 0 <= k < |logins| && LoginKey(key, logins[k]).Some? :: LoginKey(key, logins[k]).value
  }

  /** An address without a problem parses. */
  predicate Parsed(key: KeyOf, candidates: seq<Candidate>) {
    forall k :: 0 <= k < |candidates| && candidates[k].problem.None? ==> LoginKey(key, candidates[k].login).Some?
  }

  function LoginsOf(rows: seq<Marked>): (r: seq<Login>)
    ensures |r| == |rows| && forall k :: 0 <= k < |r| ==> r[k] == rows[k].candidate.login
  {
    seq(|rows|, k requires 0 <= k < |rows| => rows[k].candidate.login)
  }

  method Prepare(key: KeyOf, candidates: seq<Candidate>, existing: seq<Login>) returns (preview: Preview)
    requires Parsed(key, candidates)
    ensures preview == Prepared(key, candidates, existing)
  {
    var existingKeys := Keys(key, existing);
    var fileKeys: set<Key> := {};
    var rows: seq<Marked> := [];
    var invalid: seq<Candidate> := [];
    for k := 0 to |candidates|
      invariant Preview(rows, invalid) == Prepared(key, candidates[..k], existing)
      invariant fileKeys == Keys(key, LoginsOf(rows))
    {
      assert candidates[..k + 1][..k] == candidates[..k];
      var row := candidates[k];
      if row.problem.Some? {
        invalid := invalid + [row];
        continue;
      }
      var name := LoginKey(key, row.login).value;
      ghost var before := rows;
      rows := rows + [Marked(row, Duplicate(name, existingKeys, fileKeys))];
      fileKeys := fileKeys + {name};
      KeysOfMore(key, LoginsOf(before), row.login);
      assert LoginsOf(rows) == LoginsOf(before) + [row.login];
    }
    assert candidates[..|candidates|] == candidates;
    preview := Preview(rows, invalid);
  }

  function Prepared(key: KeyOf, candidates: seq<Candidate>, existing: seq<Login>): Preview
    requires Parsed(key, candidates)
  {
    if candidates == [] then Preview([], [])
    else
      var n := |candidates| - 1;
      var before := Prepared(key, candidates[..n], existing);
      var row := candidates[n];
      if row.problem.Some? then before.(invalid := before.invalid + [row])
      else
        var name := LoginKey(key, row.login).value;
        var duplicate := Duplicate(name, Keys(key, existing), Keys(key, LoginsOf(before.rows)));
        before.(rows := before.rows + [Marked(row, duplicate)])
  }

  function Duplicate(name: Key, existing: set<Key>, file: set<Key>): Option<DuplicateSource> {
    if name in existing then Some(InVault) else if name in file then Some(InFile) else None
  }

  function Imported(rows: seq<Marked>, strategy: Strategy): seq<Login> {
    if rows == [] then []
    else
      var n := |rows| - 1;
      Imported(rows[..n], strategy) +
      if strategy.ImportAll? || rows[n].duplicate.None? then [rows[n].candidate.login] else []
  }

  function Apply(logins: seq<Login>, preview: Preview, strategy: Strategy): seq<Login> {
    logins + Imported(preview.rows, strategy)
  }

  /** The positions of the rows that are imported. */
  function Chosen(rows: seq<Marked>, strategy: Strategy): set<int> {
    set k | 0 <= k < |rows| && (strategy.ImportAll? || rows[k].duplicate.None?)
  }

  function CountImports(preview: Preview, strategy: Strategy): nat {
    |Chosen(preview.rows, strategy)|
  }

  lemma KeysOfMore(key: KeyOf, logins: seq<Login>, login: Login)
    ensures Keys(key, logins + [login]) ==
            Keys(key, logins) + if LoginKey(key, login).Some? then {LoginKey(key, login).value} else {}
  {
    var more := logins + [login];
    assert more[|logins|] == login;
    assert forall k :: 0 <= k < |logins| ==> more[k] == logins[k];
  }

  lemma {:induction false} KeysOfJoined(key: KeyOf, a: seq<Login>, b: seq<Login>)
    ensures Keys(key, a + b) == Keys(key, a) + Keys(key, b)
  {
    if b == [] {
      assert a + b == a;
    } else {
      var n := |b| - 1;
      KeysOfJoined(key, a, b[..n]);
      KeysOfMore(key, a + b[..n], b[n]);
      KeysOfMore(key, b[..n], b[n]);
      assert a + b == (a + b[..n]) + [b[n]];
      assert b == b[..n] + [b[n]];
    }
  }

  /** The key of row `k`, which has one. */
  ghost predicate RowKey(key: KeyOf, rows: seq<Marked>, k: nat, name: Key) {
    k < |rows| && LoginKey(key, rows[k].candidate.login) == Some(name)
  }

  ghost predicate KeyBefore(key: KeyOf, rows: seq<Marked>, k: nat, name: Key) {
    exists j: nat :: j < k && RowKey(key, rows, j, name)
  }

  ghost predicate MarkedAt(key: KeyOf, rows: seq<Marked>, existing: seq<Login>, k: nat)
    requires k < |rows|
  {
    && LoginKey(key, rows[k].candidate.login).Some?
    && var name := LoginKey(key, rows[k].candidate.login).value;
      rows[k].duplicate ==
        if name in Keys(key, existing) then Some(InVault)
        else if KeyBefore(key, rows, k, name) then Some(InFile)
        else None
  }

  /** Every row has a key. It is marked as a duplicate of the vault exactly if the vault has that
      key, and otherwise of the file exactly if an earlier row has it. */
  ghost predicate MarkedExactly(key: KeyOf, rows: seq<Marked>, existing: seq<Login>) {
    forall k: nat :: k < |rows| ==> MarkedAt(key, rows, existing, k)
  }

  lemma KeyBeforeInLonger(key: KeyOf, rows: seq<Marked>, m: Marked, k: nat, name: Key)
    requires k <= |rows|
    ensures KeyBefore(key, rows + [m], k, name) <==> KeyBefore(key, rows, k, name)
  {
    if j: nat :| j < k && RowKey(key, rows + [m], j, name) {
      assert RowKey(key, rows, j, name);
    }
    if j: nat :| j < k && RowKey(key, rows, j, name) {
      assert RowKey(key, rows + [m], j, name);
    }
  }

  /** What is said of the first rows does not depend on the last one. */
  lemma MarkedInLonger(key: KeyOf, rows: seq<Marked>, m: Marked, existing: seq<Login>, k: nat)
    requires k < |rows|
    ensures MarkedAt(key, rows + [m], existing, k) <==> MarkedAt(key, rows, existing, k)
  {
    if LoginKey(key, rows[k].candidate.login).Some? {
      KeyBeforeInLonger(key, rows, m, k, LoginKey(key, rows[k].candidate.login).value);
    }
  }

  lemma RowKeys(key: KeyOf, rows: seq<Marked>, name: Key)
    ensures name in Keys(key, LoginsOf(rows)) <==> KeyBefore(key, rows, |rows|, name)
  {
    if j: nat :| RowKey(key, rows, j, name) {
      assert LoginKey(key, LoginsOf(rows)[j]) == Some(name);
    }
    if name in Keys(key, LoginsOf(rows)) {
      var j :| 0 <= j < |rows| && LoginKey(key, LoginsOf(rows)[j]) == Some(name);
      assert RowKey(key, rows, j, name);
    }
  }

  lemma MarkedOneMore(key: KeyOf, rows: seq<Marked>, existing: seq<Login>, row: Candidate)
    requires MarkedExactly(key, rows, existing) && LoginKey(key, row.login).Some?
    ensures var name := LoginKey(key, row.login).value;
      var duplicate := Duplicate(name, Keys(key, existing), Keys(key, LoginsOf(rows)));
      MarkedExactly(key, rows + [Marked(row, duplicate)], existing)
  {
    var name := LoginKey(key, row.login).value;
    var m := Marked(row, Duplicate(name, Keys(key, existing), Keys(key, LoginsOf(rows))));
    RowKeys(key, rows, name);
    KeyBeforeInLonger(key, rows, m, |rows|, name);
    forall k: nat | k < |rows + [m]|
      ensures MarkedAt(key, rows + [m], existing, k)
    {
      if k < |rows| {
        MarkedInLonger(key, rows, m, existing, k);
      }
    }
  }

  lemma {:induction false} PreparedMarksExactly(key: KeyOf, candidates: seq<Candidate>, existing: seq<Login>)
    requires Parsed(key, candidates)
    ensures var p := Prepared(key, candidates, existing);
      && MarkedExactly(key, p.rows, existing)
      && |p.rows| + |p.invalid| == |candidates|
      && (forall c <- p.invalid :: c.problem.Some?)
      && (forall m <- p.rows :: m.candidate in candidates && m.candidate.problem.None?)
  {
    if candidates != [] {
      var n := |candidates| - 1;
      PreparedMarksExactly(key, candidates[..n], existing);
      assert forall c :: c in candidates[..n] ==> c in candidates;
      if candidates[n].problem.None? {
        MarkedOneMore(key, Prepared(key, candidates[..n], existing).rows, existing, candidates[n]);
      }
    }
  }

  /** The rows without a problem, or those with one, in order. */
  function Where(candidates: seq<Candidate>, sound: bool): seq<Candidate> {
    if candidates == [] then []
    else
      var n := |candidates| - 1;
      Where(candidates[..n], sound) + if candidates[n].problem.None? == sound then [candidates[n]] else []
  }

  function CandidatesOf(rows: seq<Marked>): (r: seq<Candidate>)
    ensures |r| == |rows| && forall k :: 0 <= k < |r| ==> r[k] == rows[k].candidate
  {
    seq(|rows|, k requires 0 <= k < |rows| => rows[k].candidate)
  }

  /** A preview shows every data row once, in order, apart by whether it can be imported. */
  lemma {:induction false} PreparedShowsAll(key: KeyOf, candidates: seq<Candidate>, existing: seq<Login>)
    requires Parsed(key, candidates)
    ensures var p := Prepared(key, candidates, existing);
      CandidatesOf(p.rows) == Where(candidates, true) && p.invalid == Where(candidates, false)
  {
    if candidates != [] {
      var n := |candidates| - 1;
      PreparedShowsAll(key, candidates[..n], existing);
      var before, after := Prepared(key, candidates[..n], existing), Prepared(key, candidates, existing);
      if candidates[n].problem.None? {
        assert CandidatesOf(after.rows) == CandidatesOf(before.rows) + [candidates[n]];
        assert Where(candidates[..n], false) + [] == Where(candidates[..n], false);
      } else {
        assert Where(candidates[..n], true) + [] == Where(candidates[..n], true);
      }
    }
  }

  /** The last row is imported exactly if its key is neither in the vault nor in an earlier row. */
  lemma LastRow(key: KeyOf, rows: seq<Marked>, existing: seq<Login>)
    requires rows != [] && MarkedAt(key, rows, existing, |rows| - 1)
    ensures var n := |rows| - 1;
      var name := LoginKey(key, rows[n].candidate.login).value;
      rows[n].duplicate.None? <==> name !in Keys(key, existing) && name !in Keys(key, LoginsOf(rows[..n]))
  {
    var n := |rows| - 1;
    var name := LoginKey(key, rows[n].candidate.login).value;
    RowKeys(key, rows[..n], name);
    assert rows == rows[..n] + [rows[n]];
    KeyBeforeInLonger(key, rows[..n], rows[n], n, name);
  }

  /** `added` are logins with new keys, each key once, and they leave no key of the rows out. */
  ghost predicate NewKeysOnce(key: KeyOf, rows: seq<Marked>, existing: seq<Login>, added: seq<Login>) {
    && (forall i, j :: 0 <= i < j < |added| ==> LoginKey(key, added[i]) != LoginKey(key, added[j]))
    && (forall i :: 0 <= i < |added| ==> LoginKey(key, added[i]).Some?)
    && Keys(key, added) !! Keys(key, existing)
    && Keys(key, LoginsOf(rows)) <= Keys(key, existing) + Keys(key, added)
    && Keys(key, added) <= Keys(key, LoginsOf(rows))
  }

  lemma KeyIsIn(key: KeyOf, logins: seq<Login>, i: nat)
    requires i < |logins| && LoginKey(key, logins[i]).Some?
    ensures LoginKey(key, logins[i]).value in Keys(key, logins)
  {
  }

  lemma NewKeyAdded(key: KeyOf, before: seq<Marked>, existing: seq<Login>, added: seq<Login>, m: Marked)
    requires NewKeysOnce(key, before, existing, added)
    requires LoginKey(key, m.candidate.login).Some?
    requires LoginKey(key, m.candidate.login).value !in Keys(key, existing) + Keys(key, LoginsOf(before))
    ensures NewKeysOnce(key, before + [m], existing, added + [m.candidate.login])
  {
    var login := m.candidate.login;
    assert LoginsOf(before + [m]) == LoginsOf(before) + [login];
    KeysOfMore(key, LoginsOf(before), login);
    KeysOfMore(key, added, login);
    forall i | 0 <= i < |added|
      ensures LoginKey(key, added[i]) != LoginKey(key, login)
    {
      KeyIsIn(key, added, i);
    }
  }

  lemma KnownKeySkipped(key: KeyOf, before: seq<Marked>, existing: seq<Login>, added: seq<Login>, m: Marked)
    requires NewKeysOnce(key, before, existing, added)
    requires LoginKey(key, m.candidate.login).Some?
    requires LoginKey(key, m.candidate.login).value in Keys(key, existing) + Keys(key, LoginsOf(before))
    ensures NewKeysOnce(key, before + [m], existing, added)
  {
    assert LoginsOf(before + [m]) == LoginsOf(before) + [m.candidate.login];
    KeysOfMore(key, LoginsOf(before), m.candidate.login);
  }

  /** Skipping duplicates imports each new key once and leaves every key of the file in the vault. */
  lemma {:induction false} SkippingImportsNewKeysOnce(key: KeyOf, rows: seq<Marked>, existing: seq<Login>)
    requires MarkedExactly(key, rows, existing)
    ensures NewKeysOnce(key, rows, existing, Imported(rows, Skip))
  {
    if rows != [] {
      var n := |rows| - 1;
      var before := rows[..n];
      assert rows == before + [rows[n]];
      forall k: nat | k < n
        ensures MarkedAt(key, before, existing, k)
      {
        MarkedInLonger(key, before, rows[n], existing, k);
      }
      assert MarkedAt(key, rows, existing, n);
      SkippingImportsNewKeysOnce(key, before, existing);
      LastRow(key, rows, existing);
      assert Imported(before, Skip) + [] == Imported(before, Skip);
      if rows[n].duplicate.None? {
        NewKeyAdded(key, before, existing, Imported(before, Skip), rows[n]);
      } else {
        KnownKeySkipped(key, before, existing, Imported(before, Skip), rows[n]);
      }
    }
  }

  /** Rows whose keys the vault has are all marked as duplicates of it. */
  lemma KnownRowsAreDuplicates(key: KeyOf, rows: seq<Marked>, existing: seq<Login>)
    requires MarkedExactly(key, rows, existing) && Keys(key, LoginsOf(rows)) <= Keys(key, existing)
    ensures forall k :: 0 <= k < |rows| ==> rows[k].duplicate == Some(InVault)
  {
    forall k: nat | k < |rows|
      ensures rows[k].duplicate == Some(InVault)
    {
      assert MarkedAt(key, rows, existing, k);
      KeyIsIn(key, LoginsOf(rows), k);
    }
  }

  /** Importing the same file again, skipping duplicates, adds nothing. */
  lemma ImportingAgainAddsNothing(key: KeyOf, candidates: seq<Candidate>, existing: seq<Login>)
    requires Parsed(key, candidates)
    ensures var once := Apply(existing, Prepared(key, candidates, existing), Skip);
      var again := Prepared(key, candidates, once);
      && (forall k :: 0 <= k < |again.rows| ==> again.rows[k].duplicate == Some(InVault))
      && CountImports(again, Skip) == 0
      && Apply(once, again, Skip) == once
  {
    var first := Prepared(key, candidates, existing);
    var once := Apply(existing, first, Skip);
    var again := Prepared(key, candidates, once);
    PreparedMarksExactly(key, candidates, existing);
    PreparedMarksExactly(key, candidates, once);
    SkippingImportsNewKeysOnce(key, first.rows, existing);
    KeysOfJoined(key, existing, Imported(first.rows, Skip));
    SameLogins(key, candidates, existing, once);
    KnownRowsAreDuplicates(key, again.rows, once);
    NothingImported(again.rows);
    assert Chosen(again.rows, Skip) == {};
  }

  lemma {:induction false} SameLogins(key: KeyOf, candidates: seq<Candidate>, a: seq<Login>, b: seq<Login>)
    requires Parsed(key, candidates)
    ensures LoginsOf(Prepared(key, candidates, a).rows) == LoginsOf(Prepared(key, candidates, b).rows)
  {
    if candidates != [] {
      var n := |candidates| - 1;
      SameLogins(key, candidates[..n], a, b);
      var x, y := Prepared(key, candidates[..n], a).rows, Prepared(key, candidates[..n], b).rows;
      if candidates[n].problem.None? {
        assert LoginsOf(Prepared(key, candidates, a).rows) == LoginsOf(x) + [candidates[n].login];
        assert LoginsOf(Prepared(key, candidates, b).rows) == LoginsOf(y) + [candidates[n].login];
      }
    }
  }

  lemma {:induction false} NothingImported(rows: seq<Marked>)
    requires forall k :: 0 <= k < |rows| ==> rows[k].duplicate.Some?
    ensures Imported(rows, Skip) == []
  {
    if rows != [] {
      NothingImported(rows[..|rows| - 1]);
    }
  }

  /** What the preview announces is what applying it adds. */
  lemma {:induction false} CountIsWhatIsAdded(
    logins: seq<Login>, rows: seq<Marked>, invalid: seq<Candidate>, strategy: Strategy)
    ensures |Apply(logins, Preview(rows, invalid), strategy)| ==
            |logins| + CountImports(Preview(rows, invalid), strategy)
    ensures Apply(logins, Preview(rows, invalid), strategy)[..|logins|] == logins
  {
    if rows != [] {
      var n := |rows| - 1;
      CountIsWhatIsAdded(logins, rows[..n], invalid, strategy);
      CountOneMore(rows, invalid, strategy);
      hide CountImports;
      var added := Imported(rows[..n], strategy);
      if strategy.ImportAll? || rows[n].duplicate.None? {
        assert logins + (added + [rows[n].candidate.login]) == (logins + added) + [rows[n].candidate.login];
      } else {
        assert added + [] == added;
      }
    }
  }

  /** The logins of the chosen rows themselves are imported, in order and behind the old ones. */
  lemma {:induction false} ChosenRowsArrive(
    logins: seq<Login>, rows: seq<Marked>, invalid: seq<Candidate>, strategy: Strategy, k: nat)
    requires k in Chosen(rows, strategy)
    ensures var after := Apply(logins, Preview(rows, invalid), strategy);
      var place := |logins| + |Chosen(rows[..k], strategy)|;
      place < |after| && after[place] == rows[k].candidate.login
  {
    var n := |rows| - 1;
    CountIsWhatIsAdded(logins, rows[..n], invalid, strategy);
    if k < n {
      assert rows[..n][..k] == rows[..k];
      ChosenRowsArrive(logins, rows[..n], invalid, strategy, k);
    }
  }

  lemma CountOneMore(rows: seq<Marked>, invalid: seq<Candidate>, strategy: Strategy)
    requires rows != []
    ensures var n := |rows| - 1;
      CountImports(Preview(rows, invalid), strategy) ==
      CountImports(Preview(rows[..n], invalid), strategy)
      + if strategy.ImportAll? || rows[n].duplicate.None? then 1 else 0
  {
    var n := |rows| - 1;
    var before := Chosen(rows[..n], strategy);
    assert n !in before;
    assert Chosen(rows, strategy) == before + if strategy.ImportAll? || rows[n].duplicate.None? then {n} else {};
    hide Chosen;
  }
}
