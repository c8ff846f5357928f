/** What a sync server answers to a batch of mutations and to a pull, on the history.

  A batch is atomic and a pull reads one snapshot, so each is a function of the history
  that the vault had when the server ran it.
 */
module SyncServer {
  import opened SyncModel
  import opened SyncHistory

  /******* Pushing *******/

  function PushOne(h: History, m: Mutation): Result<(History, MutationResult), PushError> {
    var i := IndexOfId(h, m.id);
    var r := m.record.recordId;
    if i >= 0 then
      if h[i] != m then Err(MutationIdReused(m.id))
      else Ok((h, MutationResult(m.id, h[i].record.recordId, h[i].record.revision, i + 1, Replayed)))
    else if Revision(h, r) != m.baseRevision then
      Err(RevisionConflict(m.id, r, m.baseRevision, Revision(h, r)))
    else if |h| >= MAX_WIRE_BIGINT then Err(CursorExhausted)
    else Ok((h + [m], MutationResult(m.id, r, m.record.revision, |h| + 1, Applied)))
  }

  function PushBatch(h: History, ms: seq<Mutation>): Result<(History, seq<MutationResult>), PushError> {
    if ms == [] then Ok((h, []))
    else
      match PushBatch(h, ms[..|ms| - 1])
      case Err(e) => Err(e)
      case Ok((before, results)) =>
        match PushOne(before, ms[|ms| - 1])
        case Err(e) => Err(e)
        case Ok((after, result)) => Ok((after, results + [result]))
  }

  /** The vault after a batch was received: a refused batch leaves no trace. */
  function Commit(h: History, ms: seq<Mutation>): History {
    match PushBatch(h, ms)
    case Err(_) => h
    case Ok((after, _)) => after
  }

  /** `results[k]` reports where the history now holds `ms[k]`. */
  ghost predicate Reports(h: History, m: Mutation, result: MutationResult) {
    && 1 <= result.cursor <= |h|
    && h[result.cursor - 1] == m
    && result.id == m.id
    && result.recordId == m.record.recordId
    && result.revision == m.record.revision
  }

  lemma PushOneSound(h: History, m: Mutation)
    requires Valid(h) && Validated(m)
    ensures var p := PushOne(h, m); p.Ok? ==>
      && Valid(p.value.0) && Extends(h, p.value.0)
      && Reports(p.value.0, m, p.value.1)
      && (p.value.1.status.Applied? ==> p.value.0 == h + [m])
      && (p.value.1.status.Replayed? ==> p.value.0 == h)
      && (p.value.1.status.Applied? <==> IndexOfId(h, m.id) < 0)
  {
    var p := PushOne(h, m);
    if p.Ok? && IndexOfId(h, m.id) < 0 {
      ValidAppend(h, m);
    }
  }

  lemma ReportsSurvive(h: History, m: Mutation, result: MutationResult, later: History)
    requires Reports(h, m, result) && Extends(h, later)
    ensures Reports(later, m, result)
  {
    assert later[..|h|][result.cursor - 1] == later[result.cursor - 1];
  }

  /** An accepted batch is in the history, mutation by mutation, and nothing else is new. */
  ghost predicate Accepted(h: History, ms: seq<Mutation>, after: History, results: seq<MutationResult>) {
    && Valid(after) && Extends(h, after)
    && |results| == |ms|
    && (forall k :: 0 <= k < |ms| ==> Reports(after, ms[k], results[k]))
    && (forall i :: |h| <= i < |after| ==> after[i] in ms)
  }

  lemma AcceptedOneMore(h: History, ms: seq<Mutation>, before: History, results: seq<MutationResult>, m: Mutation)
    requires Validated(m) && Accepted(h, ms, before, results) && PushOne(before, m).Ok?
    ensures var (after, result) := PushOne(before, m).value;
      Accepted(h, ms + [m], after, results + [result])
  {
    PushOneSound(before, m);
    var (after, result) := PushOne(before, m).value;
    ExtendsTransitive(h, before, after);
    forall k | 0 <= k < |ms + [m]|
      ensures Reports(after, (ms + [m])[k], (results + [result])[k])
    {
      if k < |ms| {
        ReportsSurvive(before, ms[k], results[k], after);
      }
    }
    forall i | |h| <= i < |after|
      ensures after[i] in ms + [m]
    {
      if i < |before| {
        assert after[i] == before[i];
      }
    }
  }

  lemma {:induction false} AcceptedBatch(h: History, ms: seq<Mutation>)
    requires Valid(h) && forall m <- ms :: Validated(m)
    ensures var p := PushBatch(h, ms); p.Ok? ==> Accepted(h, ms, p.value.0, p.value.1)
  {
    if ms != [] && PushBatch(h, ms).Ok? {
      var n := |ms| - 1;
      AcceptedBatch(h, ms[..n]);
      var (before, results) := PushBatch(h, ms[..n]).value;
      AcceptedOneMore(h, ms[..n], before, results, ms[n]);
      assert ms == ms[..n] + [ms[n]];
    }
  }

  /** All or nothing: either every mutation of the batch is in the vault, or the vault is as it was. */
  lemma BatchIsAtomic(h: History, ms: seq<Mutation>)
    requires Valid(h) && forall m <- ms :: Validated(m)
    ensures Valid(Commit(h, ms)) && Extends(h, Commit(h, ms))
    ensures PushBatch(h, ms).Ok? ==> forall m <- ms :: m in Commit(h, ms)
    ensures PushBatch(h, ms).Err? ==> Commit(h, ms) == h
    ensures forall i :: |h| <= i < |Commit(h, ms)| ==> Commit(h, ms)[i] in ms
  {
    AcceptedBatch(h, ms);
  }

  function AsReplayed(results: seq<MutationResult>): (r: seq<MutationResult>)
    ensures |r| == |results|
    ensures forall k :: 0 <= k < |r| ==> r[k] == results[k].(status := Replayed)
  {
    seq(|results|, k requires 0 <= k < |results| => results[k].(status := Replayed))
  }

  /** Exactly once: whatever was pushed in between, pushing a committed batch again changes
      nothing and answers the original revisions and cursors. */
  lemma {:induction false} CommittedBatchReplays(h: History, ms: seq<Mutation>, later: History)
    requires Valid(h) && Valid(later) && forall m <- ms :: Validated(m)
    requires PushBatch(h, ms).Ok? && Extends(PushBatch(h, ms).value.0, later)
    ensures PushBatch(later, ms) == Ok((later, AsReplayed(PushBatch(h, ms).value.1)))
  {
    if ms != [] {
      var n := |ms| - 1;
      var before := PushBatch(h, ms[..n]).value.0;
      var after := PushBatch(h, ms).value.0;
      var result := PushOne(before, ms[n]).value.1;
      AcceptedBatch(h, ms[..n]);
      PushOneSound(before, ms[n]);
      ExtendsTransitive(before, after, later);
      CommittedBatchReplays(h, ms[..n], later);
      PushedAgain(after, ms[n], result, later);
      assert AsReplayed(PushBatch(h, ms).value.1) ==
             AsReplayed(PushBatch(h, ms[..n]).value.1) + [result.(status := Replayed)];
    }
  }

  lemma PushedAgain(after: History, m: Mutation, result: MutationResult, later: History)
    requires Valid(later) && Extends(after, later) && Reports(after, m, result)
    ensures PushOne(later, m) == Ok((later, result.(status := Replayed)))
  {
    var i := result.cursor - 1;
    assert later[i] == after[i];
    var j := IndexOfId(later, m.id);
    if i < j {
      DistinctIds(later, i, j);
    }
  }

  /** A mutation is refused as stale exactly when it is not in the vault and its base is not current. */
  lemma RefusedAsStale(h: History, m: Mutation)
    requires Valid(h)
    ensures PushOne(h, m).Err? && PushOne(h, m).error.RevisionConflict? <==>
            m.baseRevision != Revision(h, m.record.recordId) && forall i :: 0 <= i < |h| ==> h[i].id != m.id
  {
    var i := IndexOfId(h, m.id);
    assert i >= 0 ==> h[i].id == m.id;
  }

  /** No mutation of the history was sent under this id. */
  predicate IsNew(h: History, id: MutationId) {
    forall i :: 0 <= i < |h| ==> h[i].id != id
  }

  /** Every answer to one mutation, and when it is given. */
  lemma PushOneAnswers(h: History, m: Mutation)
    requires Valid(h)
    ensures var p := PushOne(h, m);
      var r, current := m.record.recordId, Count(h, m.record.recordId);
      && (p.Ok? && p.value.1.status.Replayed? <==> m in h)
      && (p == Err(MutationIdReused(m.id)) <==> m !in h && !IsNew(h, m.id))
      && (p == Err(RevisionConflict(m.id, r, m.baseRevision, current)) <==>
          IsNew(h, m.id) && m.baseRevision != current)
      && (p == Err(CursorExhausted) <==> IsNew(h, m.id) && m.baseRevision == current && |h| >= MAX_WIRE_BIGINT)
      && (p.Ok? && p.value.1.status.Applied? <==>
          IsNew(h, m.id) && m.baseRevision == current && |h| < MAX_WIRE_BIGINT)
  {
    RevisionCounts(h, m.record.recordId);
    var i := IndexOfId(h, m.id);
    if i >= 0 {
      forall k | 0 <= k < |h| && h[k] == m
        ensures k == i
      {
        if k < i {
          DistinctIds(h, k, i);
        }
      }
    }
    hide Revision, Count, Valid;
  }

  /** What the history becomes if every mutation that it does not hold is appended in turn. */
  function Grown(h: History, ms: seq<Mutation>): History {
    if ms == [] then h
    else
      var before, m := Grown(h, ms[..|ms| - 1]), ms[|ms| - 1];
      if m in before then before else before + [m]
  }

  /** The history holds the mutation, or it is new, built on the current revision, and gets a cursor. */
  predicate Acceptable(h: History, m: Mutation) {
    m in h || (IsNew(h, m.id) && m.baseRevision == Count(h, m.record.recordId) && |h| < MAX_WIRE_BIGINT)
  }

  ghost predicate AcceptableUpTo(h: History, ms: seq<Mutation>, n: nat)
    requires n <= |ms|
  {
    forall k :: 0 <= k < n ==> Acceptable(Grown(h, ms[..k]), ms[k])
  }

  /** The first mutation that is not acceptable after those before it, and the answer to it. */
  ghost predicate RefusedAt(h: History, ms: seq<Mutation>, k: nat, e: PushError) {
    k < |ms| && AcceptableUpTo(h, ms, k) && PushOne(Grown(h, ms[..k]), ms[k]) == Err(e)
  }

  /** A result says replayed exactly if the history held the mutation when its turn came. */
  ghost predicate SaysWhatWasNew(h: History, ms: seq<Mutation>, results: seq<MutationResult>) {
    |results| == |ms| &&
    forall k :: 0 <= k < |ms| ==> (results[k].status.Replayed? <==> ms[k] in Grown(h, ms[..k]))
  }

  lemma SaysOneMore(h: History, ms: seq<Mutation>, n: nat, results: seq<MutationResult>, result: MutationResult)
    requires n < |ms| && SaysWhatWasNew(h, ms[..n], results)
    requires result.status.Replayed? <==> ms[n] in Grown(h, ms[..n])
    ensures SaysWhatWasNew(h, ms[..n + 1], results + [result])
  {
    assert forall k :: 0 <= k <= n ==> ms[..n + 1][..k] == ms[..k];
    assert forall k :: 0 <= k < n ==> ms[..n][..k] == ms[..k];
    hide Grown;
  }

  lemma LongerPrefix(h: History, ms: seq<Mutation>, n: nat)
    requires n < |ms|
    ensures AcceptableUpTo(h, ms[..n], n) <==> AcceptableUpTo(h, ms, n)
    ensures AcceptableUpTo(h, ms, n + 1) <==> AcceptableUpTo(h, ms, n) && Acceptable(Grown(h, ms[..n]), ms[n])
  {
    assert forall k :: 0 <= k < n ==> ms[..n][..k] == ms[..k];
    hide Acceptable, Grown;
  }

  /** A batch is accepted exactly if each of its mutations is acceptable after those before it, and
      then the history grows by those it did not hold, which the results report as applied.
      Otherwise the first that is not decides. */
  lemma {:induction false} BatchAcceptedExactly(h: History, ms: seq<Mutation>)
    requires Valid(h) && forall m <- ms :: Validated(m)
    ensures PushBatch(h, ms).Ok? <==> AcceptableUpTo(h, ms, |ms|)
    ensures PushBatch(h, ms).Ok? ==>
      PushBatch(h, ms).value.0 == Grown(h, ms) && SaysWhatWasNew(h, ms, PushBatch(h, ms).value.1)
    ensures PushBatch(h, ms).Err? ==> exists k: nat :: RefusedAt(h, ms, k, PushBatch(h, ms).error)
  {
    if ms != [] {
      var n := |ms| - 1;
      BatchAcceptedExactly(h, ms[..n]);
      LongerPrefix(h, ms, n);
      assert ms[..n + 1] == ms;
      if PushBatch(h, ms[..n]).Ok? {
        AcceptedBatch(h, ms[..n]);
        LastOfBatch(h, ms, n);
      } else {
        var e := PushBatch(h, ms[..n]).error;
        var k: nat :| RefusedAt(h, ms[..n], k, e);
        EarlierRefusal(h, ms, n, k, e);
      }
    }
    hide Grown, Acceptable, AcceptableUpTo, RefusedAt, SaysWhatWasNew;
  }

  lemma LastOfBatch(h: History, ms: seq<Mutation>, n: nat)
    requires |ms| == n + 1 && PushBatch(h, ms[..n]).Ok? && Validated(ms[n])
    requires var (before, results) := PushBatch(h, ms[..n]).value;
      Valid(before) && before == Grown(h, ms[..n]) && SaysWhatWasNew(h, ms[..n], results)
    requires AcceptableUpTo(h, ms, n)
    ensures PushBatch(h, ms).Ok? <==> Acceptable(Grown(h, ms[..n]), ms[n])
    ensures PushBatch(h, ms).Ok? ==>
      PushBatch(h, ms).value.0 == Grown(h, ms) && SaysWhatWasNew(h, ms, PushBatch(h, ms).value.1)
    ensures PushBatch(h, ms).Err? ==> RefusedAt(h, ms, n, PushBatch(h, ms).error)
  {
    var (before, results) := PushBatch(h, ms[..n]).value;
    PushOneAnswers(before, ms[n]);
    PushOneSound(before, ms[n]);
    var p := PushOne(before, ms[n]);
    assert PushBatch(h, ms) == if p.Err? then Err(p.error) else Ok((p.value.0, results + [p.value.1]));
    assert Grown(h, ms) == if ms[n] in before then before else before + [ms[n]];
    hide PushBatch, PushOne, AcceptableUpTo, SaysWhatWasNew, Valid, Count, Grown;
    if p.Ok? {
      SaysOneMore(h, ms, n, results, p.value.1);
      assert ms[..n + 1] == ms;
    }
  }

  lemma EarlierRefusal(h: History, ms: seq<Mutation>, n: nat, k: nat, e: PushError)
    requires n <= |ms| && RefusedAt(h, ms[..n], k, e)
    ensures RefusedAt(h, ms, k, e)
  {
    assert forall j :: 0 <= j <= k ==> ms[..n][..j] == ms[..j];
    hide Acceptable, Grown, PushOne;
  }

  /******* Pulling *******/

  /** The current envelopes of the records last written after cursor `after`, in cursor order. */
  function Feed(h: History, after: nat): seq<Change>
    requires after <= |h|
    decreases |h| - after
  {
    if after == |h| then []
    else
      var current := LastIndex(h, h[after].record.recordId) == after;
      (if current then [Change(after + 1, h[after].record)] else []) + Feed(h, after + 1)
  }

  lemma FeedStep(h: History, c: nat)
    requires c < |h|
    ensures LastIndex(h, h[c].record.recordId) == c ==>
      Feed(h, c) == [Change(c + 1, h[c].record)] + Feed(h, c + 1)
    ensures LastIndex(h, h[c].record.recordId) != c ==> Feed(h, c) == Feed(h, c + 1)
  {
    assert [] + Feed(h, c + 1) == Feed(h, c + 1);
  }

  function PullPage(h: History, after: nat, limit: nat): Result<Page, PullError>
    requires limit > 0
  {
    if after > |h| then Err(CursorAhead(|h|))
    else
      var rows := Feed(h, after);
      if |rows| > limit then Ok(Page(rows[..limit], rows[limit - 1].cursor, true))
      else Ok(Page(rows, |h|, false))
  }

  /** A row of the compacted table, with its cursor in `(after, upTo]`. */
  ghost predicate CurrentRow(h: History, after: nat, upTo: nat, c: Change) {
    && after < c.cursor <= upTo <= |h|
    && c.record == h[c.cursor - 1].record
    && LastIndex(h, c.record.recordId) == c.cursor - 1
  }

  ghost predicate Delivers(changes: seq<Change>, r: RecordId) {
    exists k :: 0 <= k < |changes| && changes[k].record.recordId == r
  }

  ghost predicate Ascending(changes: seq<Change>) {
    forall j, k :: 0 <= j < k < |changes| ==> changes[j].cursor < changes[k].cursor
  }

  /** `changes` are the current rows with cursors in `(after, upTo]`, each once, in order. */
  ghost predicate RowsBetween(h: History, after: nat, upTo: nat, changes: seq<Change>) {
    && after <= upTo <= |h|
    && (forall c <- changes :: CurrentRow(h, after, upTo, c))
    && Ascending(changes)
    && (forall r :: after <= LastIndex(h, r) < upTo ==> Delivers(changes, r))
  }

  lemma DeliversMore(first: Change, rest: seq<Change>, r: RecordId)
    requires first.record.recordId == r || Delivers(rest, r)
    ensures Delivers([first] + rest, r)
  {
    var all := [first] + rest;
    assert all[0] == first;
    if first.record.recordId != r {
      var k :| 0 <= k < |rest| && rest[k].record.recordId == r;
      assert all[k + 1] == rest[k];
    }
  }

  lemma RowsFromBefore(h: History, after: nat, rest: seq<Change>)
    requires after < |h| && RowsBetween(h, after + 1, |h|, rest)
    requires LastIndex(h, h[after].record.recordId) == after
    ensures RowsBetween(h, after, |h|, [Change(after + 1, h[after].record)] + rest)
  {
    hide LastIndex, Delivers;
    var first := Change(after + 1, h[after].record);
    assert CurrentRow(h, after, |h|, first);
    forall c | c in rest
      ensures CurrentRow(h, after, |h|, c) && first.cursor < c.cursor
    {
      assert CurrentRow(h, after + 1, |h|, c);
    }
    forall r | after <= LastIndex(h, r) < |h|
      ensures Delivers([first] + rest, r)
    {
      DeliversMore(first, rest, r);
    }
  }

  lemma RowsFromSuperseded(h: History, after: nat, rest: seq<Change>)
    requires after < |h| && RowsBetween(h, after + 1, |h|, rest)
    requires LastIndex(h, h[after].record.recordId) != after
    ensures RowsBetween(h, after, |h|, rest)
  {
    forall c | c in rest
      ensures CurrentRow(h, after, |h|, c)
    {
      assert CurrentRow(h, after + 1, |h|, c);
    }
    forall r | after <= LastIndex(h, r) < |h|
      ensures Delivers(rest, r)
    {
      assert LastIndex(h, r) != after;
    }
  }

  /** The feed is what the pull query selects: the current rows after a cursor, sorted by cursor. */
  lemma {:induction false} FeedIsRows(h: History, after: nat)
    requires after <= |h|
    ensures RowsBetween(h, after, |h|, Feed(h, after))
    decreases |h| - after
  {
    if after < |h| {
      FeedIsRows(h, after + 1);
      if LastIndex(h, h[after].record.recordId) == after {
        RowsFromBefore(h, after, Feed(h, after + 1));
      } else {
        RowsFromSuperseded(h, after, Feed(h, after + 1));
        assert [] + Feed(h, after + 1) == Feed(h, after + 1);
      }
    } else {
      assert Feed(h, after) == [];
    }
  }

  /** One page: it delivers exactly the records whose current cursor it passes. A page that
      promises more advances the cursor, and more there is; the last one reaches the end of the
      history. */
  lemma PageIsRows(h: History, after: nat, limit: nat)
    requires limit > 0 && after <= |h|
    ensures var p := PullPage(h, after, limit);
      && p.Ok?
      && RowsBetween(h, after, p.value.nextCursor, p.value.changes)
      && |p.value.changes| <= limit
      && (p.value.hasMore ==> after < p.value.nextCursor && |p.value.changes| == limit)
      && (p.value.hasMore <==> exists r :: LastIndex(h, r) >= p.value.nextCursor)
      && (!p.value.hasMore ==> p.value.nextCursor == |h|)
  {
    FeedIsRows(h, after);
    var rows := Feed(h, after);
    if |rows| > limit {
      RowsCut(h, after, rows, limit);
      assert CurrentRow(h, after, |h|, rows[limit]);
      assert LastIndex(h, rows[limit].record.recordId) >= rows[limit - 1].cursor;
    }
  }

  lemma RowsCut(h: History, after: nat, rows: seq<Change>, limit: nat)
    requires 0 < limit <= |rows| && RowsBetween(h, after, |h|, rows)
    ensures after < rows[limit - 1].cursor <= |h|
    ensures RowsBetween(h, after, rows[limit - 1].cursor, rows[..limit])
  {
    var upTo := rows[limit - 1].cursor;
    assert CurrentRow(h, after, |h|, rows[limit - 1]);
    forall c | c in rows[..limit]
      ensures CurrentRow(h, after, upTo, c)
    {
      var k :| 0 <= k < limit && rows[k] == c;
      assert CurrentRow(h, after, |h|, rows[k]);
    }
    forall r | after <= LastIndex(h, r) < upTo
      ensures Delivers(rows[..limit], r)
    {
      var k :| 0 <= k < |rows| && rows[k].record.recordId == r;
      assert CurrentRow(h, after, |h|, rows[k]);
      assert k < limit;
      assert rows[..limit][k].record.recordId == r;
    }
  }

  /** A page never repeats a record. */
  lemma PageRecordsDiffer(h: History, after: nat, upTo: nat, changes: seq<Change>, j: nat, k: nat)
    requires RowsBetween(h, after, upTo, changes) && j < k < |changes|
    ensures changes[j].record.recordId != changes[k].record.recordId
  {
    assert CurrentRow(h, after, upTo, changes[j]) && CurrentRow(h, after, upTo, changes[k]);
  }
}
