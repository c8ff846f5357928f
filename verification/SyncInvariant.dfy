/** The invariant that ties a device's metadata to the server's history, and its preservation
  by every step: others pushing, an own push (answered or not), acknowledging, taking a
  page, queueing, resolving.
 */
module SyncInvariant {
  import opened SyncModel
  import opened SyncHistory
  import opened SyncServer
  import opened SyncClient
  import opened SyncDocuments

  /** The recorded state is that of a version of the record that the server applied. */
  ghost predicate RecordedFrom(h: History, r: RecordId, st: RecordState) {
    exists i: nat :: i < |h| && h[i].record.recordId == r && StateOf(h[i].record) == st
  }

  ghost predicate WasApplied(h: History, e: Envelope) {
    exists i: nat :: i < |h| && h[i].record == e
  }

  ghost predicate RecordsGenuine(h: History, m: Metadata) {
    forall r :: r in m.records ==> RecordedFrom(h, r, m.records[r])
  }

  /** A stored conflict is a version the server applied, never older than the recorded one. */
  ghost predicate ConflictsGenuine(h: History, m: Metadata) {
    forall e <- m.conflicts :: WasApplied(h, e) && e.revision >= KnownRevision(m, e.recordId)
  }

  /** The device knows that the record reached this revision: as its own state, or as a conflict. */
  predicate Knows(m: Metadata, r: RecordId, revision: nat) {
    KnownRevision(m, r) == revision || ConflictStored(m, r, revision)
  }

  /** Everything the server wrote up to the saved cursor is known at its current revision. */
  ghost predicate KnowsUpToCursor(h: History, m: Metadata) {
    forall r :: 0 <= LastIndex(h, r) < m.cursor ==> Knows(m, r, Revision(h, r))
  }

  /** A pending mutation is built on the recorded revision and says what its stamp says. */
  predicate BuiltOn(m: Metadata, p: Pending, device: nat, issued: nat) {
    && WellFormed(p.mutation)
    && p.mutation.baseRevision == KnownRevision(m, p.mutation.record.recordId)
    && StateOf(p.mutation.record).stamp == p.stamp
    && p.mutation.id.device == device
    && p.mutation.id.serial < issued
  }

  predicate OnePerRecord(outbox: seq<Pending>) {
    forall j, k :: 0 <= j < k < |outbox| ==>
      && outbox[j].mutation.record.recordId != outbox[k].mutation.record.recordId
      && outbox[j].mutation.id != outbox[k].mutation.id
  }

  ghost predicate OutboxBuilt(m: Metadata, device: nat, issued: nat) {
    && OnePerRecord(m.outbox)
    && forall p <- m.outbox :: BuiltOn(m, p, device, issued)
  }

  /** A mutation that the server applied but that is still queued is the head, was applied
      after the saved cursor, and no conflict is stored. */
  ghost predicate UnacknowledgedIsHead(h: History, m: Metadata) {
    forall p <- m.outbox :: IndexOfId(h, p.mutation.id) >= 0 ==>
      && p == m.outbox[0]
      && h[IndexOfId(h, p.mutation.id)] == p.mutation
      && IndexOfId(h, p.mutation.id) >= m.cursor
      && m.conflicts == []
  }

  ghost predicate IdsDrawn(h: History, device: nat, issued: nat) {
    forall i: nat :: i < |h| && h[i].id.device == device ==> h[i].id.serial < issued
  }

  ghost predicate AllSealable(h: History) {
    forall i: nat :: i < |h| ==> Sealable(h[i].record)
  }

  ghost predicate Inv(h: History, m: Metadata, device: nat, issued: nat) {
    && Valid(h) && AllSealable(h)
    && m.cursor <= |h|
    && RecordsGenuine(h, m)
    && ConflictsGenuine(h, m)
    && KnowsUpToCursor(h, m)
    && OutboxBuilt(m, device, issued)
    && UnacknowledgedIsHead(h, m)
    && IdsDrawn(h, device, issued)
  }

  ghost predicate WorldInv(w: World) {
    Inv(w.history, w.saved, w.device, w.issued) && UniqueIds(w.sealed.items)
  }

  /** None of the queued mutations has reached the server. */
  ghost predicate NoneApplied(h: History, m: Metadata) {
    forall p <- m.outbox :: IndexOfId(h, p.mutation.id) < 0
  }

  /** Other devices send validated mutations under ids of their own. */
  ghost predicate HonestBatch(batch: seq<Mutation>, device: nat) {
    forall x <- batch :: WellFormed(x) && x.id.device != device
  }

  ghost predicate HonestBatches(batches: seq<seq<Mutation>>, device: nat) {
    forall batch <- batches :: HonestBatch(batch, device)
  }

  ghost predicate HonestNet(net: seq<NetEvent>, device: nat) {
    forall e <- net :: HonestBatches(e.others, device)
  }

  /******* Facts about the recorded revisions *******/

  lemma KnownIsReached(h: History, m: Metadata, r: RecordId)
    requires Valid(h) && RecordsGenuine(h, m)
    ensures KnownRevision(m, r) <= Revision(h, r)
    ensures r in m.records ==> 1 <= KnownRevision(m, r)
  {
    if r in m.records {
      var i: nat :| i < |h| && h[i].record.recordId == r && StateOf(h[i].record) == m.records[r];
      RevisionIsHighest(h, i);
    }
  }

  lemma AppliedIsReached(h: History, e: Envelope)
    requires Valid(h) && WasApplied(h, e)
    ensures 1 <= e.revision <= Revision(h, e.recordId)
    ensures AllSealable(h) ==> Sealable(e)
  {
    var i: nat :| i < |h| && h[i].record == e;
    RevisionIsHighest(h, i);
  }

  lemma CurrentWasApplied(h: History, r: RecordId)
    requires LastIndex(h, r) >= 0
    ensures WasApplied(h, h[LastIndex(h, r)].record)
    ensures RecordedFrom(h, r, StateOf(h[LastIndex(h, r)].record))
  {
  }

  /** A state recorded at the current revision is the state of the current version. */
  lemma RecordedCurrent(h: History, r: RecordId, st: RecordState)
    requires Valid(h) && RecordedFrom(h, r, st) && st.revision == Revision(h, r)
    ensures LastIndex(h, r) >= 0 && st == StateOf(h[LastIndex(h, r)].record)
  {
    var i: nat :| i < |h| && h[i].record.recordId == r && StateOf(h[i].record) == st;
    RevisionIsHighest(h, i);
  }

  /******* Other devices push *******/

  ghost predicate GrownByOthers(h: History, later: History, device: nat) {
    && Valid(later) && AllSealable(later)
    && Extends(h, later)
    && forall i: nat :: |h| <= i < |later| ==> later[i].id.device != device
  }

  lemma OthersSealTheirOwn(h: History, later: History, batch: seq<Mutation>, device: nat)
    requires AllSealable(h) && HonestBatch(batch, device) && Extends(h, later)
    requires forall i :: |h| <= i < |later| ==> later[i] in batch
    ensures AllSealable(later)
  {
    forall i: nat | i < |later|
      ensures Sealable(later[i].record)
    {
      assert i < |h| ==> later[i] == h[i];
    }
  }

  lemma {:induction false} CommitAllGrows(h: History, batches: seq<seq<Mutation>>, device: nat)
    requires Valid(h) && AllSealable(h) && HonestBatches(batches, device)
    ensures GrownByOthers(h, CommitAll(h, batches), device)
    decreases |batches|
  {
    if batches != [] {
      var first := Commit(h, batches[0]);
      assert HonestBatch(batches[0], device);
      BatchIsAtomic(h, batches[0]);
      OthersSealTheirOwn(h, first, batches[0], device);
      assert forall b :: b in batches[1..] ==> b in batches;
      CommitAllGrows(first, batches[1..], device);
      GrownTransitive(h, first, CommitAll(h, batches), device);
    }
  }

  lemma GrownTransitive(a: History, b: History, c: History, device: nat)
    requires GrownByOthers(a, b, device) && GrownByOthers(b, c, device)
    ensures GrownByOthers(a, c, device)
  {
    ExtendsTransitive(a, b, c);
    forall i: nat | |a| <= i < |c|
      ensures c[i].id.device != device
    {
      if i < |b| {
        assert c[i] == b[i];
      }
    }
  }

  lemma GenuineSurvives(h: History, later: History, m: Metadata)
    requires Extends(h, later) && RecordsGenuine(h, m) && ConflictsGenuine(h, m)
    ensures RecordsGenuine(later, m) && ConflictsGenuine(later, m)
  {
    assert forall i: nat :: i < |h| ==> later[i] == h[i];
    forall r | r in m.records
      ensures RecordedFrom(later, r, m.records[r])
    {
      var i: nat :| i < |h| && h[i].record.recordId == r && StateOf(h[i].record) == m.records[r];
      assert later[i] == h[i];
    }
    forall e | e in m.conflicts
      ensures WasApplied(later, e)
    {
      var i: nat :| i < |h| && h[i].record == e;
      assert later[i] == h[i];
    }
  }

  lemma KnowledgeSurvives(h: History, later: History, m: Metadata)
    requires Extends(h, later) && m.cursor <= |h| && KnowsUpToCursor(h, m)
    ensures KnowsUpToCursor(later, m)
  {
    forall r | 0 <= LastIndex(later, r) < m.cursor
      ensures Knows(m, r, Revision(later, r))
    {
      ExtendsLastIndex(h, later, r);
      assert later[LastIndex(h, r)] == h[LastIndex(h, r)];
    }
  }

  lemma OwnIdsUntouched(h: History, later: History, device: nat, id: MutationId)
    requires GrownByOthers(h, later, device) && id.device == device
    ensures IndexOfId(later, id) == IndexOfId(h, id)
  {
    var k := IndexOfId(later, id);
    if k >= 0 {
      assert k < |h| && h[k] == later[k];
      ExtendsIndexOfId(h, later, id);
    } else {
      ExtendsIndexOfId(h, later, id);
    }
  }

  lemma OthersPushing(h: History, later: History, m: Metadata, device: nat, issued: nat)
    requires Inv(h, m, device, issued) && GrownByOthers(h, later, device)
    ensures Inv(later, m, device, issued)
    ensures NoneApplied(h, m) ==> NoneApplied(later, m)
  {
    GenuineSurvives(h, later, m);
    KnowledgeSurvives(h, later, m);
    forall p | p in m.outbox
      ensures IndexOfId(later, p.mutation.id) == IndexOfId(h, p.mutation.id)
      ensures IndexOfId(h, p.mutation.id) >= 0 ==>
        later[IndexOfId(h, p.mutation.id)] == h[IndexOfId(h, p.mutation.id)]
    {
      assert BuiltOn(m, p, device, issued);
      OwnIdsUntouched(h, later, device, p.mutation.id);
    }
    forall i: nat | i < |later| && later[i].id.device == device
      ensures later[i].id.serial < issued
    {
      assert later[i] == h[i];
    }
  }

  /******* Pushing the head and acknowledging it *******/

  /** The server applied the head; the answer has not arrived, and may never. */
  lemma HeadApplied(h: History, m: Metadata, device: nat, issued: nat)
    requires Inv(h, m, device, issued) && m.outbox != [] && m.conflicts == []
    requires Admissible(h, m.outbox[0].mutation)
    ensures Inv(h + [m.outbox[0].mutation], m, device, issued)
  {
    var head := m.outbox[0].mutation;
    var later := h + [head];
    assert BuiltOn(m, m.outbox[0], device, issued);
    ValidAppend(h, head);
    assert Extends(h, later);
    GenuineSurvives(h, later, m);
    KnowledgeSurvives(h, later, m);
    assert BuiltOn(m, m.outbox[0], device, issued);
    forall p | p in m.outbox && IndexOfId(later, p.mutation.id) >= 0
      ensures p == m.outbox[0] && later[IndexOfId(later, p.mutation.id)] == p.mutation
      ensures IndexOfId(later, p.mutation.id) >= m.cursor
    {
      IndexOfIdAppend(h, head, p.mutation.id);
    }
  }

  /** Acknowledging the applied head. Nothing queued is left on the server. */
  lemma HeadAcknowledged(h: History, m: Metadata, device: nat, issued: nat)
    requires Inv(h, m, device, issued) && m.outbox != [] && m.conflicts == []
    requires IndexOfId(h, m.outbox[0].mutation.id) >= 0
    ensures Inv(h, Acknowledge(m), device, issued)
    ensures NoneApplied(h, Acknowledge(m))
  {
    var head := m.outbox[0];
    var r := head.mutation.record.recordId;
    var i := IndexOfId(h, head.mutation.id);
    var after := Acknowledge(m);
    TailUnapplied(h, m, device, issued);
    assert BuiltOn(m, head, device, issued);
    assert RecordsGenuine(h, m) && KnowsUpToCursor(h, m) && UnacknowledgedIsHead(h, m);
    hide Inv, Valid, AllSealable, IdsDrawn, LastIndex, IndexOfId, OutboxBuilt, WellFormed;
    assert h[i] == head.mutation && i >= m.cursor;
    assert after.records[r] == StateOf(head.mutation.record);
    forall q | q in after.records
      ensures RecordedFrom(h, q, after.records[q])
    {
      if q == r {
        assert h[i].record.recordId == q;
      } else {
        assert RecordedFrom(h, q, m.records[q]);
      }
    }
    forall q | 0 <= LastIndex(h, q) < after.cursor
      ensures Knows(after, q, Revision(h, q))
    {
      assert q != r;
      assert Knows(m, q, Revision(h, q));
    }
  }

  /** The entries behind the head stay built on what is recorded, and none of them was applied. */
  lemma TailUnapplied(h: History, m: Metadata, device: nat, issued: nat)
    requires OutboxBuilt(m, device, issued) && UnacknowledgedIsHead(h, m) && m.outbox != []
    ensures OutboxBuilt(Acknowledge(m), device, issued) && NoneApplied(h, Acknowledge(m))
  {
    hide IndexOfId;
    var after := Acknowledge(m);
    forall p | p in after.outbox
      ensures BuiltOn(after, p, device, issued) && IndexOfId(h, p.mutation.id) < 0
    {
      var k :| 1 <= k < |m.outbox| && m.outbox[k] == p;
      assert BuiltOn(m, p, device, issued);
    }
  }

  /******* Taking a page *******/

  /** During a pull, every stored conflict is on a record that stays blocked. */
  ghost predicate ConflictsBlocked(l: Local) {
    forall e <- l.meta.conflicts :: Blocked(l.document, l.meta, e.recordId)
  }

  ghost predicate PullInv(h: History, l: Local, device: nat, issued: nat) {
    && Inv(h, l.meta, device, issued)
    && NoneApplied(h, l.meta)
    && ConflictsBlocked(l)
    && UniqueIds(l.document.items)
  }

  lemma StoredConflictGrows(m: Metadata, e: Envelope, r: RecordId, v: nat)
    ensures ConflictStored(m.(conflicts := m.conflicts + [e]), r, v) <==>
            ConflictStored(m, r, v) || (e.recordId == r && e.revision == v)
  {
    var more := m.conflicts + [e];
    assert more[|m.conflicts|] == e;
    assert forall x :: x in more <==> x in m.conflicts || x == e;
  }

  /** A remote version of a blocked record is kept aside. */
  lemma ChangeKeptAside(h: History, l: Local, e: Envelope, device: nat, issued: nat)
    requires PullInv(h, l, device, issued) && Blocked(l.document, l.meta, e.recordId)
    requires WasApplied(h, e) && e.revision == Revision(h, e.recordId)
    ensures PullInv(h, ApplyChange(l, e), device, issued)
    ensures ConflictStored(ApplyChange(l, e).meta, e.recordId, e.revision)
  {
    KnownIsReached(h, l.meta, e.recordId);
    if !ConflictStored(l.meta, e.recordId, e.revision) {
      var after := ApplyChange(l, e).meta;
      StoredConflictGrows(l.meta, e, e.recordId, e.revision);
      forall r | 0 <= LastIndex(h, r) < after.cursor
        ensures Knows(after, r, Revision(h, r))
      {
        assert Knows(l.meta, r, Revision(h, r));
        StoredConflictGrows(l.meta, e, r, Revision(h, r));
      }
      forall p | p in after.outbox
        ensures BuiltOn(after, p, device, issued)
      {
        assert BuiltOn(l.meta, p, device, issued);
      }
    }
  }

  /** A remote version of an unblocked record becomes the local one, and leaves it unblocked. */
  lemma ChangeTakenOver(h: History, l: Local, e: Envelope, device: nat, issued: nat)
    requires PullInv(h, l, device, issued) && !Blocked(l.document, l.meta, e.recordId)
    requires WasApplied(h, e) && e.revision == Revision(h, e.recordId)
    ensures PullInv(h, ApplyChange(l, e), device, issued)
    ensures KnownRevision(ApplyChange(l, e).meta, e.recordId) == e.revision
    ensures !Blocked(ApplyChange(l, e).document, ApplyChange(l, e).meta, e.recordId)
  {
    var next := ApplyChange(l, e);
    var after := next.meta;
    var r := e.recordId;
    AppliedIsReached(h, e);
    forall q | q in after.records
      ensures RecordedFrom(h, q, after.records[q])
    {
      if q == r {
        var i: nat :| i < |h| && h[i].record == e;
        assert h[i].record.recordId == q;
      } else {
        assert RecordedFrom(h, q, l.meta.records[q]);
      }
    }
    forall q | 0 <= LastIndex(h, q) < after.cursor
      ensures Knows(after, q, Revision(h, q))
    {
      assert Knows(l.meta, q, Revision(h, q));
    }
    forall p | p in after.outbox
      ensures BuiltOn(after, p, device, issued)
    {
      assert BuiltOn(l.meta, p, device, issued);
      assert p.mutation.record.recordId != r;
    }
    forall x | x in after.conflicts
      ensures x.recordId != r && Blocked(next.document, after, x.recordId)
    {
      FindTakeOver(l.document, e, x.recordId);
    }
    FindTakeOver(l.document, e, r);
    TakeOverUnique(l.document, e);
  }

  /** Either way the version is known, and what was known about other records stays known. */
  lemma ChangeProcessed(h: History, l: Local, e: Envelope, device: nat, issued: nat)
    requires PullInv(h, l, device, issued)
    requires WasApplied(h, e) && e.revision == Revision(h, e.recordId)
    ensures PullInv(h, ApplyChange(l, e), device, issued)
    ensures ApplyChange(l, e).meta.cursor == l.meta.cursor
    ensures Knows(ApplyChange(l, e).meta, e.recordId, e.revision)
    ensures forall r, v :: r != e.recordId && Knows(l.meta, r, v) ==> Knows(ApplyChange(l, e).meta, r, v)
  {
    if Blocked(l.document, l.meta, e.recordId) {
      ChangeKeptAside(h, l, e, device, issued);
      forall r, v | r != e.recordId && Knows(l.meta, r, v)
        ensures Knows(ApplyChange(l, e).meta, r, v)
      {
        StoredConflictGrows(l.meta, e, r, v);
      }
    } else {
      ChangeTakenOver(h, l, e, device, issued);
    }
  }

  lemma OneMoreChange(l: Local, all: seq<Change>, n: nat)
    requires n < |all|
    ensures ApplyChanges(l, all[..n + 1]) == ApplyChange(ApplyChanges(l, all[..n]), all[n].record)
  {
    assert all[..n + 1][..n] == all[..n];
  }

  lemma RowWasApplied(h: History, after: nat, upTo: nat, changes: seq<Change>, k: nat)
    requires RowsBetween(h, after, upTo, changes) && k < |changes|
    ensures WasApplied(h, changes[k].record)
    ensures changes[k].record.revision == Revision(h, changes[k].record.recordId)
  {
    assert CurrentRow(h, after, upTo, changes[k]);
  }

  /** The first `n` changes are known. */
  ghost predicate KnowsFirst(m: Metadata, all: seq<Change>, n: nat)
    requires n <= |all|
  {
    forall k :: 0 <= k < n ==> Knows(m, all[k].record.recordId, all[k].record.revision)
  }

  lemma OneMoreProcessed(
    h: History, l: Local, after: nat, upTo: nat, all: seq<Change>, n: nat, device: nat, issued: nat)
    requires PullInv(h, l, device, issued) && RowsBetween(h, after, upTo, all) && n < |all|
    requires KnowsFirst(l.meta, all, n)
    ensures PullInv(h, ApplyChange(l, all[n].record), device, issued)
    ensures ApplyChange(l, all[n].record).meta.cursor == l.meta.cursor
    ensures KnowsFirst(ApplyChange(l, all[n].record).meta, all, n + 1)
  {
    RowWasApplied(h, after, upTo, all, n);
    ChangeProcessed(h, l, all[n].record, device, issued);
    hide PullInv, ApplyChange, RowsBetween, Knows, WasApplied, Revision;
    forall k | 0 <= k < n
      ensures all[k].record.recordId != all[n].record.recordId
    {
      PageRecordsDiffer(h, after, upTo, all, k, n);
    }
  }

  /** The rows of a page are processed one by one. */
  lemma {:induction false} ChangesProcessed(
    h: History, l: Local, upTo: nat, all: seq<Change>, n: nat, device: nat, issued: nat)
    requires PullInv(h, l, device, issued) && RowsBetween(h, l.meta.cursor, upTo, all) && n <= |all|
    ensures PullInv(h, ApplyChanges(l, all[..n]), device, issued)
    ensures ApplyChanges(l, all[..n]).meta.cursor == l.meta.cursor
    ensures KnowsFirst(ApplyChanges(l, all[..n]).meta, all, n)
  {
    if n > 0 {
      ChangesProcessed(h, l, upTo, all, n - 1, device, issued);
      OneMoreProcessed(h, ApplyChanges(l, all[..n - 1]), l.meta.cursor, upTo, all, n - 1, device, issued);
      OneMoreChange(l, all, n - 1);
    } else {
      assert all[..0] == [];
    }
    hide PullInv, ApplyChange, ApplyChanges, RowsBetween, KnowsFirst;
  }

  /** The saved cursor may move to where everything behind it is known. */
  lemma CursorAdvances(h: History, l: Local, upTo: nat, device: nat, issued: nat)
    requires PullInv(h, l, device, issued) && upTo <= |h|
    requires forall r :: l.meta.cursor <= LastIndex(h, r) < upTo ==> Knows(l.meta, r, Revision(h, r))
    ensures PullInv(h, l.(meta := l.meta.(cursor := upTo)), device, issued)
  {
    var after := l.meta.(cursor := upTo);
    forall r | 0 <= LastIndex(h, r) < upTo
      ensures Knows(after, r, Revision(h, r))
    {
      assert Knows(l.meta, r, Revision(h, r));
    }
    forall p | p in after.outbox
      ensures BuiltOn(after, p, device, issued)
    {
      assert BuiltOn(l.meta, p, device, issued);
    }
    forall e | e in after.conflicts
      ensures Blocked(l.document, after, e.recordId)
    {
      assert Blocked(l.document, l.meta, e.recordId);
    }
  }

  lemma PageDeliversRevision(h: History, after: nat, upTo: nat, changes: seq<Change>, r: RecordId) returns (k: nat)
    requires RowsBetween(h, after, upTo, changes) && after <= LastIndex(h, r) < upTo
    ensures k < |changes| && changes[k].record.recordId == r && changes[k].record.revision == Revision(h, r)
    ensures changes[k].record == h[LastIndex(h, r)].record
  {
    assert Delivers(changes, r);
    k :| 0 <= k < |changes| && changes[k].record.recordId == r;
    assert CurrentRow(h, after, upTo, changes[k]);
  }

  /** A page with its cursor keeps the invariant: what the page passed is now known. */
  lemma PageTaken(h: History, l: Local, page: Page, device: nat, issued: nat)
    requires PullInv(h, l, device, issued)
    requires RowsBetween(h, l.meta.cursor, page.nextCursor, page.changes)
    ensures PullInv(h, TakePage(l, page), device, issued)
  {
    var all := page.changes;
    ChangesProcessed(h, l, page.nextCursor, all, |all|, device, issued);
    assert all[..|all|] == all;
    forall r | l.meta.cursor <= LastIndex(h, r) < page.nextCursor
      ensures Knows(ApplyChanges(l, all).meta, r, Revision(h, r))
    {
      var k := PageDeliversRevision(h, l.meta.cursor, page.nextCursor, all, r);
      assert Knows(ApplyChanges(l, all).meta, r, all[k].record.revision);
    }
    CursorAdvances(h, ApplyChanges(l, all), page.nextCursor, device, issued);
  }
}
