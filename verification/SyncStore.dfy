/** The server's tables and the two operations on them, proved to answer as the history does. */
module SyncStore {
  import opened SyncModel
  import opened SyncHistory
  import opened SyncServer

  /** A row of `sync_record`: the one current envelope of a record. */
  datatype Row = Row(revision: nat, cursor: nat, plaintext: Plaintext)

  /** A row of `sync_mutation`. A fingerprint determines its mutation, so it is one. */
  datatype LogRow = LogRow(recordId: RecordId, revision: nat, cursor: nat, fingerprint: Mutation)

  datatype Tables = Tables(nextCursor: nat, records: map<RecordId, Row>, log: map<MutationId, LogRow>)

  function RowOf(h: History, i: nat): Row
    requires i < |h|
  {
    Row(h[i].record.revision, i + 1, h[i].record.plaintext)
  }

  function LogRowOf(h: History, i: nat): LogRow
    requires i < |h|
  {
    LogRow(h[i].record.recordId, h[i].record.revision, i + 1, h[i])
  }

  ghost predicate StoresRecords(records: map<RecordId, Row>, h: History) {
    && (forall r :: r in records <==> LastIndex(h, r) >= 0)
    && (forall r :: r in records ==> records[r] == RowOf(h, LastIndex(h, r)))
  }

  ghost predicate StoresLog(log: map<MutationId, LogRow>, h: History) {
    && (forall id :: id in log <==> IndexOfId(h, id) >= 0)
    && (forall id :: id in log ==> log[id] == LogRowOf(h, IndexOfId(h, id)))
  }

  /** The tables are those of a vault that applied `h`. */
  ghost predicate Stores(t: Tables, h: History) {
    Numbered(h) && t.nextCursor == |h| && StoresRecords(t.records, h) && StoresLog(t.log, h)
  }

  /******* What the tables of a vault always satisfy *******/

  lemma LogEntryAt(t: Tables, h: History, i: nat)
    requires Stores(t, h) && i < |h|
    ensures h[i].id in t.log && t.log[h[i].id] == LogRowOf(h, i)
  {
    assert IndexOfId(h, h[i].id) == i;
  }

  ghost predicate UsesCursor(t: Tables, c: nat) {
    exists id :: id in t.log && t.log[id].cursor == c
  }

  ghost predicate WroteRevision(t: Tables, r: RecordId, v: nat) {
    exists id :: id in t.log && t.log[id].recordId == r && t.log[id].revision == v
  }

  /** Applied log entries use each cursor `1 .. nextCursor` exactly once. */
  lemma CursorsAreUsedOnce(t: Tables, h: History)
    requires Stores(t, h)
    ensures forall c: nat :: UsesCursor(t, c) <==> 1 <= c <= t.nextCursor
    ensures forall a, b | a in t.log && b in t.log && t.log[a].cursor == t.log[b].cursor :: a == b
  {
    forall c: nat | 1 <= c <= t.nextCursor
      ensures UsesCursor(t, c)
    {
      LogEntryAt(t, h, c - 1);
    }
    forall a, b | a in t.log && b in t.log && t.log[a].cursor == t.log[b].cursor
      ensures a == b
    {
      assert IndexOfId(h, a) == IndexOfId(h, b);
    }
  }

  /** The log entries of one record have increasing revisions in cursor order. */
  lemma RevisionsFollowCursors(t: Tables, h: History, a: MutationId, b: MutationId)
    requires Stores(t, h) && Valid(h) && a in t.log && b in t.log
    requires t.log[a].recordId == t.log[b].recordId && t.log[a].cursor < t.log[b].cursor
    ensures t.log[a].revision < t.log[b].revision
  {
    RevisionsIncrease(h, IndexOfId(h, a), IndexOfId(h, b));
  }

  lemma {:induction false} RevisionWasWritten(h: History, r: RecordId, v: nat) returns (i: nat)
    requires Valid(h) && 1 <= v <= Revision(h, r)
    ensures i < |h| && h[i].record.recordId == r && h[i].record.revision == v
  {
    i := LastIndex(h, r);
    if v < h[i].record.revision {
      assert AdmittedAt(h, i);
      ValidPrefix(h, i);
      i := RevisionWasWritten(h[..i], r, v);
    }
  }

  /** A record's log entries carry revisions `1 .. k`; its table row is the `k`-th of them. */
  lemma RowIsNewestLogEntry(t: Tables, h: History, r: RecordId)
    requires Stores(t, h) && Valid(h) && r in t.records
    ensures forall v: nat :: WroteRevision(t, r, v) <==> 1 <= v <= t.records[r].revision
    ensures forall id | id in t.log && t.log[id].recordId == r ::
      t.log[id].revision == t.records[r].revision <==> t.log[id].cursor == t.records[r].cursor
  {
    forall v: nat | 1 <= v <= t.records[r].revision
      ensures WroteRevision(t, r, v)
    {
      var i := RevisionWasWritten(h, r, v);
      LogEntryAt(t, h, i);
    }
    forall id | id in t.log && t.log[id].recordId == r
      ensures 1 <= t.log[id].revision <= t.records[r].revision
      ensures t.log[id].revision == t.records[r].revision <==> t.log[id].cursor == t.records[r].cursor
    {
      RevisionIsHighest(h, IndexOfId(h, id));
    }
  }

  /** No two records share a cursor. */
  lemma RecordCursorsDiffer(t: Tables, h: History, a: RecordId, b: RecordId)
    requires Stores(t, h) && a in t.records && b in t.records && a != b
    ensures t.records[a].cursor != t.records[b].cursor
    ensures 1 <= t.records[a].cursor <= t.nextCursor
  {
    assert LastIndex(h, a) != LastIndex(h, b);
  }

  /******* The store *******/

  lemma StoresRecordsAppend(records: map<RecordId, Row>, h: History, m: Mutation)
    requires StoresRecords(records, h)
    ensures StoresRecords(records[m.record.recordId := RowOf(h + [m], |h|)], h + [m])
  {
    var after := records[m.record.recordId := RowOf(h + [m], |h|)];
    forall r
      ensures r in after <==> LastIndex(h + [m], r) >= 0
      ensures r in after ==> after[r] == RowOf(h + [m], LastIndex(h + [m], r))
    {
      LastIndexAppend(h, m, r);
    }
  }

  lemma StoresLogAppend(log: map<MutationId, LogRow>, h: History, m: Mutation)
    requires StoresLog(log, h)
    ensures StoresLog(log[m.id := LogRowOf(h + [m], |h|)], h + [m])
  {
    var after := log[m.id := LogRowOf(h + [m], |h|)];
    forall id
      ensures id in after <==> IndexOfId(h + [m], id) >= 0
      ensures id in after ==> after[id] == LogRowOf(h + [m], IndexOfId(h + [m], id))
    {
      IndexOfIdAppend(h, m, id);
    }
  }

  lemma StoresAppend(t: Tables, h: History, m: Mutation)
    requires Stores(t, h) && IndexOfId(h, m.id) < 0 && |h| < MAX_WIRE_BIGINT
    ensures Stores(
              Tables(|h| + 1,
                     t.records[m.record.recordId := RowOf(h + [m], |h|)],
                     t.log[m.id := LogRowOf(h + [m], |h|)]),
              h + [m])
  {
    StoresRecordsAppend(t.records, h, m);
    StoresLogAppend(t.log, h, m);
  }

  /** The index on cursors: who, if anyone, has its current row at a cursor. */
  lemma RowAtCursor(records: map<RecordId, Row>, h: History, c: nat, r: RecordId)
    requires StoresRecords(records, h) && c < |h|
    ensures r in records && records[r].cursor == c + 1 <==>
            r == h[c].record.recordId && LastIndex(h, r) == c
    ensures r in records && records[r].cursor == c + 1 ==>
            Envelope(r, records[r].revision, records[r].plaintext) == h[c].record
  {
  }

  function Take<T>(s: seq<T>, count: nat): seq<T> {
    if |s| <= count then s else s[..count]
  }

  lemma TakePrefix<T>(s: seq<T>, rest: seq<T>, count: nat)
    requires |s| == count || (|s| < count && rest == [])
    ensures Take(s + rest, count) == s
  {
  }

  lemma AppendRow<T>(s: seq<T>, x: T, rest: seq<T>)
    ensures s + ([x] + rest) == (s + [x]) + rest
  {
  }

  /** A refused mutation refuses every batch that reaches it. */
  lemma {:induction false} RefusedBatch(h: History, ms: seq<Mutation>, n: nat)
    requires n <= |ms| && PushBatch(h, ms[..n]).Err?
    ensures PushBatch(h, ms) == PushBatch(h, ms[..n])
    decreases |ms| - n
  {
    if n < |ms| {
      assert ms[..n + 1][..n] == ms[..n];
      RefusedBatch(h, ms, n + 1);
    } else {
      assert ms[..n] == ms;
    }
  }

  lemma SelectTurn(h: History, after: nat, c: nat, rows: seq<Change>, row: Option<Change>)
    requires after <= c < |h| && Feed(h, after) == rows + Feed(h, c)
    requires row == if LastIndex(h, h[c].record.recordId) == c then Some(Change(c + 1, h[c].record)) else None
    ensures Feed(h, after) == (rows + if row.Some? then [row.value] else []) + Feed(h, c + 1)
  {
    FeedStep(h, c);
    var rest := Feed(h, c + 1);
    hide *;
    if row.Some? {
      AppendRow(rows, row.value, rest);
    } else {
      assert rows + [] == rows;
    }
  }

  /** One turn of the batch loop, on an accepted prefix. */
  lemma BatchTurn(h: History, ms: seq<Mutation>, k: nat, before: History, results: seq<MutationResult>)
    requires k < |ms| && PushBatch(h, ms[..k]) == Ok((before, results))
    ensures PushOne(before, ms[k]).Ok? ==>
      PushBatch(h, ms[..k + 1]) ==
      Ok((PushOne(before, ms[k]).value.0, results + [PushOne(before, ms[k]).value.1]))
    ensures PushOne(before, ms[k]).Err? ==>
      PushBatch(h, ms) == Err(PushOne(before, ms[k]).error)
  {
    assert ms[..k + 1][..k] == ms[..k];
    if PushOne(before, ms[k]).Err? {
      RefusedBatch(h, ms, k + 1);
    }
  }

  /** What the tables say about one mutation is what the history says. */
  lemma TurnOnTables(t: Tables, h: History, m: Mutation)
    requires Stores(t, h)
    ensures var r := m.record.recordId;
      var current := if r in t.records then t.records[r].revision else 0;
      PushOne(h, m) ==
        if m.id in t.log then
          var entry := t.log[m.id];
          if entry.fingerprint != m then Err(MutationIdReused(m.id))
          else Ok((h, MutationResult(m.id, entry.recordId, entry.revision, entry.cursor, Replayed)))
        else if current != m.baseRevision then Err(RevisionConflict(m.id, r, m.baseRevision, current))
        else if t.nextCursor >= MAX_WIRE_BIGINT then Err(CursorExhausted)
        else Ok((h + [m], MutationResult(m.id, r, m.record.revision, t.nextCursor + 1, Applied)))
    ensures m.id !in t.log ==> IndexOfId(h, m.id) < 0
  {
  }

  /** The row whose cursor is `c + 1`, found through the index on cursors. */
  method RowWithCursor(records: map<RecordId, Row>, ghost h: History, c: nat) returns (row: Option<Change>)
    requires StoresRecords(records, h) && c < |h|
    ensures row == if LastIndex(h, h[c].record.recordId) == c then Some(Change(c + 1, h[c].record)) else None
  {
    forall r {
      RowAtCursor(records, h, c, r);
    }
    row := None;
    if r :| r in records && records[r].cursor == c + 1 {
      row := Some(Change(c + 1, Envelope(r, records[r].revision, records[r].plaintext)));
    }
  }

  /** The pull query: rows after a cursor, in cursor order, at most `count` of them. */
  method SelectAfter(records: map<RecordId, Row>, nextCursor: nat, ghost h: History, after: nat, count: nat)
    returns (rows: seq<Change>)
    requires StoresRecords(records, h) && nextCursor == |h|
    ensures rows == if after > |h| then [] else Take(Feed(h, after), count)
  {
    rows := [];
    if after > nextCursor {
      return;
    }
    var c := after;
    hide StoresRecords;
    while c < nextCursor && |rows| < count
      invariant after <= c <= nextCursor && |rows| <= count
      invariant Feed(h, after) == rows + Feed(h, c)
    {
      var row := RowWithCursor(records, h, c);
      SelectTurn(h, after, c, rows, row);
      rows := rows + if row.Some? then [row.value] else [];
      c := c + 1;
    }
    TakePrefix(rows, Feed(h, c), count);
  }

  class Store {
    var nextCursor: nat
    var records: map<RecordId, Row>
    var log: map<MutationId, LogRow>
    ghost var history: History

    ghost predicate IsValid()
      reads this
    {
      Stores(Tables(nextCursor, records, log), history)
    }

    constructor ()
      ensures IsValid() && history == []
    {
      nextCursor, records, log, history := 0, map[], map[], [];
    }

    /** One transaction: the working copies reach the tables only if every mutation is accepted. */
    method PushMutations(mutations: seq<Mutation>) returns (reply: Result<(seq<MutationResult>, nat), PushError>)
      requires IsValid()
      modifies this
      ensures IsValid()
      ensures Valid(old(history)) && (forall m <- mutations :: Validated(m)) ==> Valid(history)
      ensures history == Commit(old(history), mutations)
      ensures reply == match PushBatch(old(history), mutations)
                       case Err(e) => Err(e)
                       case Ok((after, results)) => Ok((results, |after|))
    {
      hide StoresRecords, StoresLog, Numbered, Valid, PushOne;
      if Valid(history) && forall m <- mutations :: Validated(m) {
        BatchIsAtomic(history, mutations);
      }
      var cursor: nat, rows, entries := nextCursor, records, log;
      ghost var h := history;
      var results := [];
      for k := 0 to |mutations|
        modifies {}
        invariant Stores(Tables(cursor, rows, entries), h)
        invariant PushBatch(history, mutations[..k]) == Ok((h, results))
      {
        var m := mutations[k];
        var r := m.record.recordId;
        BatchTurn(history, mutations, k, h, results);
        TurnOnTables(Tables(cursor, rows, entries), h, m);
        if m.id in entries {
          var entry := entries[m.id];
          if entry.fingerprint != m {
            return Err(MutationIdReused(m.id));
          }
          results := results + [MutationResult(m.id, entry.recordId, entry.revision, entry.cursor, Replayed)];
        } else {
          var currentRevision := if r in rows then rows[r].revision else 0;
          if currentRevision != m.baseRevision {
            return Err(RevisionConflict(m.id, r, m.baseRevision, currentRevision));
          }
          if cursor >= MAX_WIRE_BIGINT {
            return Err(CursorExhausted);
          }
          StoresAppend(Tables(cursor, rows, entries), h, m);
          cursor := cursor + 1;
          rows := rows[r := Row(m.record.revision, cursor, m.record.plaintext)];
          entries := entries[m.id := LogRow(r, m.record.revision, cursor, m)];
          results := results + [MutationResult(m.id, r, m.record.revision, cursor, Applied)];
          h := h + [m];
        }
      }
      assert mutations[..|mutations|] == mutations;
      nextCursor, records, log, history := cursor, rows, entries, h;
      reply := Ok((results, cursor));
    }

    method PullChanges(after: nat, limit: nat) returns (reply: Result<Page, PullError>)
      requires IsValid() && limit > 0
      ensures reply == PullPage(history, after, limit)
    {
      var rows := SelectAfter(records, nextCursor, history, after, limit + 1);
      if limit < |rows| {
        assert Feed(history, after)[..limit + 1][..limit] == Feed(history, after)[..limit];
      }
      var hasMore := |rows| > limit;
      var pageRows := if hasMore then rows[..limit] else rows;
      if after > nextCursor {
        return Err(CursorAhead(nextCursor));
      }
      var next := if hasMore then pageRows[|pageRows| - 1].cursor else nextCursor;
      reply := Ok(Page(pageRows, next, hasMore));
    }
  }
}
