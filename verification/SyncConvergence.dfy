/** A completed sync leaves nothing to do, and the device with exactly the server's logins. */
module SyncConvergence {
  import opened SyncModel
  import opened SyncHistory
  import opened SyncServer
  import opened SyncClient
  import opened SyncDocuments
  import opened SyncInvariant
  import opened SyncQueue
  import opened SyncSafety
  import opened SyncOutcomes

  /** The login that the server's current version of a record opens to, if it is not deleted. */
  function LiveLogin(h: History, r: RecordId): Option<Item> {
    var i := LastIndex(h, r);
    if i >= 0 && h[i].record.plaintext.Login? then Some(h[i].record.plaintext.item) else None
  }

  /******* Uploading settles the document *******/

  /** The metadata once every queued mutation is acknowledged. */
  function Acknowledged(m: Metadata): Metadata
    decreases |m.outbox|
  {
    if m.outbox == [] then m else Acknowledged(Acknowledge(m))
  }

  lemma {:induction false} DrainAcknowledges(w: World, m: Metadata, pushed: nat)
    ensures DrainOutbox(w, m, pushed).end.Finished? ==> DrainOutbox(w, m, pushed).meta == Acknowledged(m)
    decreases |w.net|
  {
    if m.outbox != [] {
      var (asked, answer) := HttpPush(w, m.outbox[0].mutation);
      if answer.Accepted? && Save(asked, Acknowledge(m)).1 {
        DrainAcknowledges(Save(asked, Acknowledge(m)).0, Acknowledge(m), pushed + 1);
      }
    }
  }

  /** A drain that finishes has pushed every queued mutation once. */
  lemma {:induction false} DrainCounts(w: World, m: Metadata, pushed: nat)
    ensures var d := DrainOutbox(w, m, pushed);
      && pushed <= d.pushed <= pushed + |m.outbox|
      && (d.end.Finished? ==> d.pushed == pushed + |m.outbox|)
      && (d.end.Failed? && !d.end.error.NotSaved? ==> d.meta.outbox == m.outbox[d.pushed - pushed..])
    decreases |w.net|
  {
    if m.outbox != [] {
      var (asked, answer) := HttpPush(w, m.outbox[0].mutation);
      if answer.Accepted? && Save(asked, Acknowledge(m)).1 {
        DrainCounts(Save(asked, Acknowledge(m)).0, Acknowledge(m), pushed + 1);
      }
    }
  }

  function AcknowledgedState(p: Pending): RecordState {
    RecordState(p.mutation.record.revision, p.stamp, p.stamp.None?)
  }

  lemma {:induction false} AcknowledgedRecords(m: Metadata, r: RecordId)
    requires OnePerRecord(m.outbox)
    ensures var after := Acknowledged(m);
      && after.outbox == [] && after.conflicts == m.conflicts
      && (forall p <- m.outbox :: p.mutation.record.recordId == r ==>
            r in after.records && after.records[r] == AcknowledgedState(p))
      && (!PendingFor(m, r) ==>
            (r in after.records <==> r in m.records) && (r in m.records ==> after.records[r] == m.records[r]))
    decreases |m.outbox|
  {
    if m.outbox != [] {
      AcknowledgedRecords(Acknowledge(m), r);
      var head := m.outbox[0];
      forall k | 1 <= k < |m.outbox|
        ensures m.outbox[k].mutation.record.recordId != head.mutation.record.recordId
      {
      }
      assert m.outbox == [m.outbox[0]] + m.outbox[1..];
      assert forall p :: p in m.outbox <==> p == m.outbox[0] || p in m.outbox[1..];
    }
  }

  /** Once the local changes are queued and acknowledged, no record counts as changed. */
  lemma UploadSettles(m: Metadata, document: Document, keys: seq<RecordId>, device: nat, serial: nat)
    requires m.outbox == [] && UniqueIds(document.items) && Enumerates(keys, m)
    ensures NothingBlocked(document, Acknowledged(EnqueueLocalChanges(m, document, keys, device, serial)))
  {
    var queued := EnqueueLocalChanges(m, document, keys, device, serial);
    var q := NewMutations(m, document, keys, device, serial);
    assert queued.outbox == q;
    NewMutationsAre(m, document, keys, device, serial);
    AllChangesQueued(m, document, keys, device, serial);
    forall j, k | 0 <= j < k < |q|
      ensures q[j].mutation.id != q[k].mutation.id
    {
    }
    forall r
      ensures !HasLocalChange(document, Acknowledged(queued), r)
    {
      AcknowledgedRecords(queued, r);
      RecordSettles(m, document, keys, q, Acknowledged(queued), r);
    }
    AcknowledgedRecords(queued, "");
  }

  lemma RecordSettles(
    m: Metadata, document: Document, keys: seq<RecordId>, q: seq<Pending>, after: Metadata, r: RecordId)
    requires m.outbox == [] && UniqueIds(document.items)
    requires forall p <- q :: UploadsFrom(m, document.items, p) || DeletesFrom(m, document, keys, p)
    requires forall item <- document.items :: !NeedsUpload(m, item) || Uploaded(q, item)
    requires forall x :: NeedsDeletion(m, document, x) ==> Deleted(q, x)
    requires forall p <- q :: p.mutation.record.recordId == r ==>
      r in after.records && after.records[r] == AcknowledgedState(p)
    requires (forall p <- q :: p.mutation.record.recordId != r) ==>
      (r in after.records <==> r in m.records) && (r in m.records ==> after.records[r] == m.records[r])
    ensures !HasLocalChange(document, after, r)
  {
    FindSound(document.items, r);
    var item := FindItem(document.items, r);
    if p :| p in q && p.mutation.record.recordId == r {
      if UploadsFrom(m, document.items, p) {
        var x :| x in document.items && p.stamp == Some(x.updatedAt)
          && p.mutation.record == Envelope(x.id, KnownRevision(m, x.id) + 1, Login(x));
        FindUnique(document.items, x);
      } else {
        assert DeletesFrom(m, document, keys, p);
      }
    } else if item.Some? {
      assert item.value in document.items && !NeedsUpload(m, item.value);
    } else {
      assert !NeedsDeletion(m, document, r);
    }
  }

  /******* Convergence *******/

  /** Same ids, and the same version stamp under each. */
  ghost predicate SameVersions(items: seq<Item>, h: History) {
    forall r ::
      && (FindItem(items, r).Some? <==> LiveLogin(h, r).Some?)
      && (FindItem(items, r).Some? ==> FindItem(items, r).value.updatedAt == LiveLogin(h, r).value.updatedAt)
  }

  /** A settled device that has read to the end of the history holds the server's versions. */
  lemma SettledAgrees(h: History, l: Local, device: nat, issued: nat)
    requires PullInv(h, l, device, issued) && l.meta.cursor == |h|
    requires NothingBlocked(l.document, l.meta) && l.meta.conflicts == []
    ensures SameVersions(l.document.items, h)
  {
    forall r
      ensures FindItem(l.document.items, r).Some? <==> LiveLogin(h, r).Some?
      ensures FindItem(l.document.items, r).Some? ==>
        FindItem(l.document.items, r).value.updatedAt == LiveLogin(h, r).value.updatedAt
    {
      assert !HasLocalChange(l.document, l.meta, r);
      if LastIndex(h, r) >= 0 {
        assert Knows(l.meta, r, Revision(h, r));
        RevisionIsHighest(h, LastIndex(h, r));
        assert RecordedFrom(h, r, l.meta.records[r]);
        RecordedCurrent(h, r, l.meta.records[r]);
      } else {
        KnownIsReached(h, l.meta, r);
      }
    }
  }

  /** What a sync that reaches its final return leaves: nothing queued, no conflict, no record
      counted as changed, everything stored, and the server's versions at the last page. */
  ghost predicate Converged(o: SyncOutcome) {
    && o.conflicts == 0
    && o.world.saved.outbox == [] && o.world.saved.conflicts == []
    && o.world.saved.cursor == |o.world.history|
    && o.world.sealed == o.document && UniqueIds(o.document.items)
    && (forall r :: !HasLocalChange(o.document, o.world.saved, r))
    && SameVersions(o.document.items, o.world.history)
  }

  lemma UploadConverges(first: Pulled, replayed: nat, keys: seq<RecordId>)
    requires Draining(first.world, first.meta) && first.world.sealed == first.document && first.meta.outbox == []
    requires UploadAndPull(first, replayed, keys).end.Completed?
    ensures Converged(UploadAndPull(first, replayed, keys))
  {
    QueueAndSaveKeeps(first.world, first.meta, keys);
    var ((stored, queued), _) := QueueAndSave(first.world, first.document, first.meta, keys);
    DrainKeeps(stored, queued, 0);
    DrainAcknowledges(stored, queued, 0);
    UploadSettles(first.meta, first.document, keys, first.world.device, first.world.issued);
    var d := DrainOutbox(stored, queued, 0);
    PullStarts(d.world, d.meta);
    var l := Local(first.document, d.meta, 0);
    PullKeeps(d.world, l);
    UnblockedPull(d.world, l);
    var p := PullFrom(d.world, l);
    SettledAgrees(p.world.history, Local(p.document, p.meta, p.applied), p.world.device, p.world.issued);
  }

  /** Convergence, in versions: for every start that satisfies the invariant and every behaviour
      of the network, of the disk and of other devices. */
  lemma CompletedSyncConverges(w: World, keys: seq<RecordId>)
    requires Running(w) && SyncNow(w, keys).end.Completed?
    ensures Converged(SyncNow(w, keys))
  {
    DrainKeeps(w, w.saved, 0);
    var d := DrainOutbox(w, w.saved, 0);
    PullStarts(d.world, d.meta);
    var l := Local(w.sealed, d.meta, 0);
    PullKeeps(d.world, l);
    PullKeepsOutbox(d.world, l);
    var p := PullFrom(d.world, l);
    PulledIsDraining(p);
    UploadConverges(p, d.pushed, keys);
  }

  /** Convergence over whole runs: whatever happened before, however it was cut short. */
  lemma EveryCompletedSyncConverges(
    start: World, ops: seq<Operation>, net: seq<NetEvent>, disk: seq<bool>, keys: seq<RecordId>)
    requires WorldInv(start) && HonestNet(net, start.device)
    requires forall op <- ops :: Honest(op, start.device)
    ensures var o := SyncNow(Run(start, ops).(net := net, disk := disk), keys);
      o.end.Completed? ==> Converged(o)
  {
    RunKeeps(start, ops);
    var w := Run(start, ops).(net := net, disk := disk);
    if SyncNow(w, keys).end.Completed? {
      CompletedSyncConverges(w, keys);
    }
  }

  lemma {:induction false} ChangesKeepOutbox(l: Local, changes: seq<Change>)
    ensures ApplyChanges(l, changes).meta.outbox == l.meta.outbox
  {
    if changes != [] {
      ChangesKeepOutbox(l, changes[..|changes| - 1]);
    }
  }

  lemma {:induction false} PullKeepsOutbox(w: World, l: Local)
    ensures PullFrom(w, l).meta.outbox == l.meta.outbox
    decreases |w.net|
  {
    var (asked, answer) := HttpPull(w, l.meta.cursor);
    if answer.Some? && answer.value.Ok? {
      ChangesKeepOutbox(l, answer.value.value.changes);
    }
    var (stored, taken, turn) := PullTurn(w, l);
    if turn.Again? {
      PullKeepsOutbox(stored, taken);
    }
  }

  /******* Convergence, in logins *******/

  /** A login of the starting document, or one that some applied mutation carries. */
  ghost predicate IsVersion(items: seq<Item>, h: History, x: Item) {
    x in items || exists i: nat :: i < |h| && h[i].record.plaintext == Login(x)
  }

  /** Two versions of a login with the same id and stamp are equal. */
  ghost predicate VersionsAgree(items: seq<Item>, h: History) {
    forall x, y :: IsVersion(items, h, x) && IsVersion(items, h, y) && x.id == y.id && x.updatedAt == y.updatedAt ==>
      x == y
  }

  ghost predicate MadeOf(document: Document, items: seq<Item>, h: History) {
    forall x <- document.items :: IsVersion(items, h, x)
  }

  lemma MadeOfLater(document: Document, items: seq<Item>, h: History, later: History)
    requires MadeOf(document, items, h) && Extends(h, later)
    ensures MadeOf(document, items, later)
  {
    forall x | x in document.items
      ensures IsVersion(items, later, x)
    {
      if x !in items {
        var i: nat :| i < |h| && h[i].record.plaintext == Login(x);
        assert later[i] == h[i];
      }
    }
  }

  lemma ChangeMadeOf(h: History, l: Local, e: Envelope, items: seq<Item>)
    requires MadeOf(l.document, items, h) && WasApplied(h, e)
    ensures MadeOf(ApplyChange(l, e).document, items, h)
  {
    var i: nat :| i < |h| && h[i].record == e;
    WithoutKeeps(l.document.items, e.recordId);
    if e.plaintext.Login? {
      WithoutKeeps(l.document.items, e.plaintext.item.id);
      assert IsVersion(items, h, e.plaintext.item);
    }
  }

  lemma {:induction false} ChangesMadeOf(h: History, l: Local, changes: seq<Change>, items: seq<Item>)
    requires MadeOf(l.document, items, h) && forall c <- changes :: WasApplied(h, c.record)
    ensures MadeOf(ApplyChanges(l, changes).document, items, h)
  {
    if changes != [] {
      var before := changes[..|changes| - 1];
      assert changes == before + [changes[|changes| - 1]];
      InLonger(before, changes[|changes| - 1]);
      ChangesMadeOf(h, l, before, items);
      ChangeMadeOf(h, ApplyChanges(l, before), changes[|changes| - 1].record, items);
    }
  }

  lemma TurnMadeOf(w: World, l: Local, items: seq<Item>)
    requires Pulling(w, l) && MadeOf(l.document, items, w.history)
    ensures MadeOf(PullTurn(w, l).1.document, items, PullTurn(w, l).0.history)
  {
    PullAsked(w, l.meta.cursor);
    var (asked, answer) := HttpPull(w, l.meta.cursor);
    MadeOfLater(l.document, items, w.history, asked.history);
    if answer.Some? {
      forall c | c in answer.value.value.changes
        ensures WasApplied(asked.history, c.record)
      {
        assert CurrentRow(asked.history, l.meta.cursor, answer.value.value.nextCursor, c);
      }
      ChangesMadeOf(asked.history, l, answer.value.value.changes, items);
    }
  }

  lemma {:induction false} PullMadeOf(w: World, l: Local, items: seq<Item>)
    requires Pulling(w, l) && MadeOf(l.document, items, w.history)
    ensures MadeOf(PullFrom(w, l).document, items, PullFrom(w, l).world.history)
    decreases |w.net|
  {
    TurnMadeOf(w, l, items);
    PullTurnKeeps(w, l);
    var (stored, taken, turn) := PullTurn(w, l);
    if turn.Again? {
      PullMadeOf(stored, taken, items);
    }
  }

  lemma UploadMadeOf(first: Pulled, replayed: nat, keys: seq<RecordId>, items: seq<Item>)
    requires Draining(first.world, first.meta) && first.world.sealed == first.document
    requires MadeOf(first.document, items, first.world.history)
    ensures var o := UploadAndPull(first, replayed, keys);
      o.end.Completed? ==> MadeOf(o.document, items, o.world.history)
  {
    QueueAndSaveKeeps(first.world, first.meta, keys);
    var ((stored, queued), error) := QueueAndSave(first.world, first.document, first.meta, keys);
    if error.None? {
      DrainKeeps(stored, queued, 0);
      var d := DrainOutbox(stored, queued, 0);
      if d.end.Finished? {
        PullStarts(d.world, d.meta);
        MadeOfLater(first.document, items, stored.history, d.world.history);
        PullMadeOf(d.world, Local(first.document, d.meta, 0), items);
      }
    }
  }

  /** Convergence: after a completed sync the document, as a map from ids to logins, is the map
      of the server's live records at the last page. */
  lemma CompletedSyncHoldsLiveLogins(w: World, keys: seq<RecordId>)
    requires Running(w) && SyncNow(w, keys).end.Completed?
    requires VersionsAgree(w.sealed.items, SyncNow(w, keys).world.history)
    ensures forall r :: FindItem(SyncNow(w, keys).document.items, r) == LiveLogin(SyncNow(w, keys).world.history, r)
  {
    CompletedSyncConverges(w, keys);
    CompletedSyncMadeOf(w, keys);
    var o := SyncNow(w, keys);
    var h := o.world.history;
    forall r
      ensures FindItem(o.document.items, r) == LiveLogin(h, r)
    {
      if LiveLogin(h, r).Some? {
        FindSound(o.document.items, r);
        SyncKeeps(w, keys);
        var i := LastIndex(h, r);
        assert Sealable(h[i].record);
        assert IsVersion(w.sealed.items, h, h[i].record.plaintext.item);
        assert IsVersion(w.sealed.items, h, FindItem(o.document.items, r).value);
      }
    }
  }

  lemma CompletedSyncMadeOf(w: World, keys: seq<RecordId>)
    requires Running(w) && SyncNow(w, keys).end.Completed?
    ensures MadeOf(SyncNow(w, keys).document, w.sealed.items, SyncNow(w, keys).world.history)
  {
    DrainKeeps(w, w.saved, 0);
    var d := DrainOutbox(w, w.saved, 0);
    PullStarts(d.world, d.meta);
    var l := Local(w.sealed, d.meta, 0);
    PullKeeps(d.world, l);
    PullMadeOf(d.world, l, w.sealed.items);
    var p := PullFrom(d.world, l);
    PulledIsDraining(p);
    UploadMadeOf(p, d.pushed, keys, w.sealed.items);
  }

  /** Two devices that both complete a sync, with no push in between, hold the same logins. */
  lemma CompletedDevicesAgree(a: World, aKeys: seq<RecordId>, b: World, bKeys: seq<RecordId>)
    requires Running(a) && SyncNow(a, aKeys).end.Completed?
    requires Running(b) && SyncNow(b, bKeys).end.Completed?
    requires SyncNow(a, aKeys).world.history == SyncNow(b, bKeys).world.history
    requires VersionsAgree(a.sealed.items, SyncNow(a, aKeys).world.history)
    requires VersionsAgree(b.sealed.items, SyncNow(b, bKeys).world.history)
    ensures var x, y := SyncNow(a, aKeys).document, SyncNow(b, bKeys).document;
      forall item :: item in x.items <==> item in y.items
  {
    CompletedSyncHoldsLiveLogins(a, aKeys);
    CompletedSyncHoldsLiveLogins(b, bKeys);
    CompletedSyncConverges(a, aKeys);
    CompletedSyncConverges(b, bKeys);
    var x, y := SyncNow(a, aKeys).document, SyncNow(b, bKeys).document;
    SameLookupsSameItems(x.items, y.items);
  }

  lemma SameLookupsSameItems(x: seq<Item>, y: seq<Item>)
    requires UniqueIds(x) && UniqueIds(y) && forall r :: FindItem(x, r) == FindItem(y, r)
    ensures forall item :: item in x <==> item in y
  {
    forall item
      ensures item in x <==> item in y
    {
      FindSound(x, item.id);
      FindSound(y, item.id);
      if item in x {
        FindUnique(x, item);
      }
      if item in y {
        FindUnique(y, item);
      }
    }
  }
}
