/** What a device pushes in a completed sync: exactly what was changed on it, and nothing else. */
module SyncOwnWork {
  import opened SyncModel
  import opened SyncHistory
  import opened SyncClient
  import opened SyncDocuments
  import opened SyncInvariant
  import opened SyncQueue
  import opened SyncSafety
  import opened SyncOutcomes
  import opened SyncConvergence

  /** The device's own mutation `x` was applied between the two histories. */
  ghost predicate Pushed(h: History, later: History, device: nat, x: Mutation) {
    x.id.device == device && exists i: nat :: |h| <= i < |later| && later[i] == x
  }

  ghost predicate InQueue(q: seq<Pending>, x: Mutation) {
    exists p <- q :: p.mutation == x
  }

  lemma OthersPushNothing(h: History, later: History, device: nat, x: Mutation)
    requires GrownByOthers(h, later, device)
    ensures !Pushed(h, later, device, x)
  {
  }

  lemma PushedInTwo(h: History, mid: History, later: History, device: nat, x: Mutation)
    requires Extends(h, mid) && Extends(mid, later)
    ensures Pushed(h, later, device, x) <==> Pushed(h, mid, device, x) || Pushed(mid, later, device, x)
  {
    assert forall i: nat :: i < |mid| ==> later[i] == mid[i];
    if i: nat :| |h| <= i < |mid| && mid[i] == x {
      assert later[i] == x;
    }
    if i: nat :| |h| <= i < |later| && later[i] == x {
      assert i < |mid| ==> mid[i] == x;
    }
  }

  /******* Draining pushes what is queued *******/

  lemma AppendedIsPushed(h: History, there: History, head: Mutation, device: nat, x: Mutation)
    requires GrownByOthers(h, there, device) && head.id.device == device
    ensures Pushed(h, there + [head], device, x) <==> x == head
  {
    assert (there + [head])[|there|] == head;
  }

  /** An accepted head was applied now, unless it had been before. */
  lemma HeadPushedOnce(w: World, m: Metadata, x: Mutation)
    requires Draining(w, m) && m.outbox != []
    ensures var (asked, answer) := HttpPush(w, m.outbox[0].mutation);
      answer.Accepted? ==>
        (Pushed(w.history, asked.history, w.device, x) <==>
         x == m.outbox[0].mutation && IndexOfId(w.history, x.id) < 0)
  {
    var head := m.outbox[0].mutation;
    if w.net != [] {
      ElsewhereWaits(w);
      var there := Elsewhere(w).history;
      SinglePush(there, head);
      assert BuiltOn(m, m.outbox[0], w.device, w.issued);
      OwnIdsUntouched(w.history, there, w.device, head.id);
      OthersPushNothing(w.history, there, w.device, x);
      AppendedIsPushed(w.history, there, head, w.device, x);
    }
  }

  lemma TailIsUnapplied(h: History, later: History, m: Metadata, x: Mutation)
    requires m.outbox != [] && OnePerRecord(m.outbox) && Extends(h, later) && Valid(later)
    requires NoneApplied(later, Acknowledge(m))
    ensures InQueue(m.outbox[1..], x) ==>
      IndexOfId(h, x.id) < 0 && IndexOfId(later, x.id) < 0 && x != m.outbox[0].mutation
    ensures InQueue(m.outbox, x) <==> x == m.outbox[0].mutation || InQueue(m.outbox[1..], x)
  {
    assert m.outbox == [m.outbox[0]] + m.outbox[1..];
    if InQueue(m.outbox[1..], x) {
      var k :| 1 <= k < |m.outbox| && m.outbox[k].mutation == x;
      assert m.outbox[k] in Acknowledge(m).outbox;
      ExtendsIndexOfId(h, later, x.id);
    }
  }

  /** A drain that finishes has applied exactly the queued mutations that were not applied before. */
  lemma {:induction false} DrainPushesQueue(w: World, m: Metadata, pushed: nat, x: Mutation)
    requires Draining(w, m)
    ensures var d := DrainOutbox(w, m, pushed); d.end.Finished? ==>
      (Pushed(w.history, d.world.history, w.device, x) <==> InQueue(m.outbox, x) && IndexOfId(w.history, x.id) < 0)
    decreases |w.net|
  {
    if m.outbox != [] {
      HeadPushed(w, m);
      HeadPushedOnce(w, m, x);
      var (asked, answer) := HttpPush(w, m.outbox[0].mutation);
      if answer.Accepted? {
        HeadAcknowledged(asked.history, m, w.device, w.issued);
        TailIsUnapplied(w.history, asked.history, m, x);
        var (stored, ok) := Save(asked, Acknowledge(m));
        if ok {
          DrainPushesQueue(stored, Acknowledge(m), pushed + 1, x);
          DrainKeeps(stored, Acknowledge(m), pushed + 1);
          var d := DrainOutbox(stored, Acknowledge(m), pushed + 1);
          PushedInTwo(w.history, asked.history, d.world.history, w.device, x);
        }
      }
    }
  }

  /******* A pull keeps what is changed *******/

  lemma ChangeKeepsUnblocked(l: Local, e: Envelope, r: RecordId)
    requires !Blocked(l.document, l.meta, r) && Sealable(e)
    ensures !Blocked(ApplyChange(l, e).document, ApplyChange(l, e).meta, r)
  {
    FindTakeOver(l.document, e, r);
  }

  lemma {:induction false} ChangesKeepUnblocked(l: Local, changes: seq<Change>, r: RecordId)
    requires !Blocked(l.document, l.meta, r) && forall c <- changes :: Sealable(c.record)
    ensures !Blocked(ApplyChanges(l, changes).document, ApplyChanges(l, changes).meta, r)
  {
    if changes != [] {
      var before := changes[..|changes| - 1];
      assert changes == before + [changes[|changes| - 1]];
      InLonger(before, changes[|changes| - 1]);
      ChangesKeepUnblocked(l, before, r);
      ChangeKeepsUnblocked(ApplyChanges(l, before), changes[|changes| - 1].record, r);
    }
  }

  lemma {:induction false} PullKeepsUnblocked(w: World, l: Local, r: RecordId)
    requires Pulling(w, l) && !Blocked(l.document, l.meta, r)
    ensures !Blocked(PullFrom(w, l).document, PullFrom(w, l).meta, r)
    decreases |w.net|
  {
    ReceivedAreSealable(w, l);
    ChangesKeepUnblocked(l, Received(w, l), r);
    TurnApplies(w, l);
    PullTurnKeeps(w, l);
    var (stored, taken, turn) := PullTurn(w, l);
    if turn.Again? {
      PullKeepsUnblocked(stored, taken, r);
    }
  }

  /** A record counts as changed after a pull exactly if it did before, and then holds the same item. */
  lemma PullKeepsChanges(w: World, l: Local, r: RecordId)
    requires Pulling(w, l) && l.meta.outbox == []
    ensures var p := PullFrom(w, l);
      && p.meta.outbox == []
      && (HasLocalChange(p.document, p.meta, r) <==> HasLocalChange(l.document, l.meta, r))
      && (HasLocalChange(l.document, l.meta, r) ==> FindItem(p.document.items, r) == FindItem(l.document.items, r))
  {
    PullKeepsOutbox(w, l);
    if Blocked(l.document, l.meta, r) {
      PullSparesLocalWork(w, l, r);
    } else {
      PullKeepsUnblocked(w, l, r);
    }
  }

  /** What counts as changed is what needs a deletion or an upload. */
  lemma ChangeIsWork(document: Document, m: Metadata, r: RecordId)
    ensures NeedsDeletion(m, document, r) <==> HasLocalChange(document, m, r) && FindItem(document.items, r).None?
    ensures FindItem(document.items, r).Some? ==>
      (NeedsUpload(m, FindItem(document.items, r).value) <==> HasLocalChange(document, m, r))
  {
    FindSound(document.items, r);
  }

  predicate Changed(document: Document, m: Metadata, x: Item) {
    FindItem(document.items, x.id) == Some(x) && NeedsUpload(m, x)
  }

  lemma PullKeepsWork(w: World, l: Local, r: RecordId)
    requires Pulling(w, l) && l.meta.outbox == []
    ensures var p := PullFrom(w, l);
      && (NeedsDeletion(p.meta, p.document, r) <==> NeedsDeletion(l.meta, l.document, r))
      && (forall x: Item :: x.id == r ==> (Changed(p.document, p.meta, x) <==> Changed(l.document, l.meta, x)))
  {
    PullKeepsChanges(w, l, r);
    ChangeIsWork(l.document, l.meta, r);
    ChangeIsWork(PullFrom(w, l).document, PullFrom(w, l).meta, r);
  }

  /******* What is queued *******/

  /** With nothing pending, a tombstone is queued exactly for a record that needs one. */
  lemma QueuedDeletionIsNeeded(
    m: Metadata, document: Document, keys: seq<RecordId>, device: nat, serial: nat, r: RecordId)
    requires m.outbox == [] && UniqueIds(document.items) && Enumerates(keys, m)
    ensures Deleted(NewMutations(m, document, keys, device, serial), r) <==> NeedsDeletion(m, document, r)
  {
    var q := NewMutations(m, document, keys, device, serial);
    NewMutationsAre(m, document, keys, device, serial);
    AllChangesQueued(m, document, keys, device, serial);
    if p :| p in q && p.mutation.record.recordId == r && p.mutation.record.plaintext.Tombstone? {
      assert DeletesFrom(m, document, keys, p);
    }
  }

  /** With nothing pending, a login is queued exactly if it is new or changed here. */
  lemma QueuedLoginIsChanged(
    m: Metadata, document: Document, keys: seq<RecordId>, device: nat, serial: nat, x: Item)
    requires m.outbox == [] && UniqueIds(document.items) && Enumerates(keys, m)
    ensures Uploaded(NewMutations(m, document, keys, device, serial), x) <==> Changed(document, m, x)
  {
    var q := NewMutations(m, document, keys, device, serial);
    NewMutationsAre(m, document, keys, device, serial);
    AllChangesQueued(m, document, keys, device, serial);
    FindSound(document.items, x.id);
    if p :| p in q && p.mutation.record.recordId == x.id && p.mutation.record.plaintext == Login(x) {
      assert UploadsFrom(m, document.items, p);
      FindUnique(document.items, x);
    }
  }

  /******* A completed sync *******/

  /** The first pull of a sync. */
  function FirstPull(w: World): Pulled {
    var d := DrainOutbox(w, w.saved, 0);
    PullRemote(d.world, w.sealed, d.meta)
  }

  /** What a sync queues after its first pull. */
  function QueuedBySync(w: World, keys: seq<RecordId>): seq<Pending> {
    var first := FirstPull(w);
    NewMutations(first.meta, first.document, keys, first.world.device, first.world.issued)
  }

  lemma UploadPushes(first: Pulled, replayed: nat, keys: seq<RecordId>, x: Mutation)
    requires Draining(first.world, first.meta) && first.world.sealed == first.document && first.meta.outbox == []
    requires UploadAndPull(first, replayed, keys).end.Completed?
    ensures Enumerates(keys, first.meta)
    ensures var o := UploadAndPull(first, replayed, keys);
      && Extends(first.world.history, o.world.history)
      && (Pushed(first.world.history, o.world.history, first.world.device, x) <==>
          InQueue(NewMutations(first.meta, first.document, keys, first.world.device, first.world.issued), x))
  {
    var w := first.world;
    var q := NewMutations(first.meta, first.document, keys, w.device, w.issued);
    QueueAndSaveKeeps(w, first.meta, keys);
    UploadAndPullKeeps(first, replayed, keys);
    var ((stored, queued), _) := QueueAndSave(w, first.document, first.meta, keys);
    assert queued.outbox == q;
    QueueingKeeps(w.history, first.meta, first.document, keys, w.device, w.issued);
    DrainKeeps(stored, queued, 0);
    DrainPushesQueue(stored, queued, 0, x);
    var d := DrainOutbox(stored, queued, 0);
    PullStarts(d.world, d.meta);
    PullKeeps(d.world, Local(first.document, d.meta, 0));
    var second := PullRemote(d.world, first.document, d.meta);
    OthersPushNothing(d.world.history, second.world.history, w.device, x);
    PushedInTwo(w.history, d.world.history, second.world.history, w.device, x);
  }

  /** A completed sync has applied, of this device, what was pending and not yet applied, and what
      it queued after its first pull. */
  lemma CompletedSyncPushes(w: World, keys: seq<RecordId>, x: Mutation)
    requires Running(w) && SyncNow(w, keys).end.Completed?
    ensures Enumerates(keys, FirstPull(w).meta) && UniqueIds(FirstPull(w).document.items)
    ensures FirstPull(w).meta.outbox == []
    ensures Pushed(w.history, SyncNow(w, keys).world.history, w.device, x) <==>
            (InQueue(w.saved.outbox, x) && IndexOfId(w.history, x.id) < 0) || InQueue(QueuedBySync(w, keys), x)
  {
    DrainKeeps(w, w.saved, 0);
    DrainPushesQueue(w, w.saved, 0, x);
    var d := DrainOutbox(w, w.saved, 0);
    PullStarts(d.world, d.meta);
    var l := Local(w.sealed, d.meta, 0);
    PullKeeps(d.world, l);
    PullKeepsOutbox(d.world, l);
    var first := PullFrom(d.world, l);
    PulledIsDraining(first);
    UploadPushes(first, d.pushed, keys, x);
    OthersPushNothing(d.world.history, first.world.history, w.device, x);
    ExtendsTransitive(w.history, d.world.history, first.world.history);
    PushedInTwo(w.history, d.world.history, first.world.history, w.device, x);
    PushedInTwo(w.history, first.world.history, SyncNow(w, keys).world.history, w.device, x);
  }

  /** What needs work after the first pull is what needed it before, on the acknowledged metadata. */
  lemma FirstPullKeepsWork(w: World, keys: seq<RecordId>, r: RecordId)
    requires Running(w) && SyncNow(w, keys).end.Completed?
    ensures var first := FirstPull(w);
      && (NeedsDeletion(first.meta, first.document, r) <==> NeedsDeletion(Acknowledged(w.saved), w.sealed, r))
      && (forall x: Item :: x.id == r ==>
            (Changed(first.document, first.meta, x) <==> Changed(w.sealed, Acknowledged(w.saved), x)))
  {
    DrainKeeps(w, w.saved, 0);
    DrainAcknowledges(w, w.saved, 0);
    var d := DrainOutbox(w, w.saved, 0);
    PullStarts(d.world, d.meta);
    PullKeepsWork(d.world, Local(w.sealed, d.meta, 0), r);
  }

  /** The device applied a tombstone of the record between the two histories. */
  ghost predicate PushedDeletion(h: History, later: History, device: nat, r: RecordId) {
    exists x: Mutation :: Pushed(h, later, device, x) && x.record.recordId == r && x.record.plaintext.Tombstone?
  }

  ghost predicate PushedLogin(h: History, later: History, device: nat, x: Item) {
    exists y: Mutation ::
      Pushed(h, later, device, y) && y.record.recordId == x.id && y.record.plaintext == Login(x)
  }

  ghost predicate Unapplied(h: History, p: Pending) {
    IndexOfId(h, p.mutation.id) < 0
  }

  /** A tombstone of the record is pending and has not been applied. */
  ghost predicate DeletionPending(w: World, r: RecordId) {
    exists p <- w.saved.outbox ::
      Unapplied(w.history, p) && p.mutation.record.recordId == r && p.mutation.record.plaintext.Tombstone?
  }

  ghost predicate LoginPending(w: World, x: Item) {
    exists p <- w.saved.outbox ::
      Unapplied(w.history, p) && p.mutation.record.recordId == x.id && p.mutation.record.plaintext == Login(x)
  }

  /** A completed sync deletes a record exactly if its deletion was pending, or the document lacks a
      login that the metadata records: what a caller can see before the sync. */
  lemma CompletedSyncDeletes(w: World, keys: seq<RecordId>, r: RecordId)
    requires Running(w) && SyncNow(w, keys).end.Completed?
    ensures PushedDeletion(w.history, SyncNow(w, keys).world.history, w.device, r) <==>
            DeletionPending(w, r) || NeedsDeletion(Acknowledged(w.saved), w.sealed, r)
    ensures w.saved.outbox == [] ==>
      (PushedDeletion(w.history, SyncNow(w, keys).world.history, w.device, r) <==> NeedsDeletion(w.saved, w.sealed, r))
  {
    var first := FirstPull(w);
    var q := QueuedBySync(w, keys);
    var later := SyncNow(w, keys).world.history;
    forall x: Mutation
      ensures Pushed(w.history, later, w.device, x) <==>
              (InQueue(w.saved.outbox, x) && IndexOfId(w.history, x.id) < 0) || InQueue(q, x)
    {
      CompletedSyncPushes(w, keys, x);
    }
    CompletedSyncEnumerates(w, keys);
    FirstPullKeepsWork(w, keys, r);
    QueuedDeletionIsNeeded(first.meta, first.document, keys, first.world.device, first.world.issued, r);
    hide Pushed, NewMutations, SyncNow, DrainOutbox, PullRemote, Running, NeedsDeletion;
    if DeletionPending(w, r) {
      var p :| p in w.saved.outbox && Unapplied(w.history, p)
        && p.mutation.record.recordId == r && p.mutation.record.plaintext.Tombstone?;
      assert InQueue(w.saved.outbox, p.mutation);
    }
    if Deleted(q, r) {
      var p :| p in q && p.mutation.record.recordId == r && p.mutation.record.plaintext.Tombstone?;
      assert InQueue(q, p.mutation);
    }
  }

  lemma CompletedSyncEnumerates(w: World, keys: seq<RecordId>)
    requires Running(w) && SyncNow(w, keys).end.Completed?
    ensures Enumerates(keys, FirstPull(w).meta) && UniqueIds(FirstPull(w).document.items)
    ensures FirstPull(w).meta.outbox == []
  {
    CompletedSyncPushes(w, keys, Mutation(MutationId(0, 0), 0, Envelope("", 0, Tombstone(0))));
  }

  /** A completed sync uploads a login exactly if it was pending, or the document holds it and the
      metadata does not record it under its stamp. */
  lemma CompletedSyncUploads(w: World, keys: seq<RecordId>, x: Item)
    requires Running(w) && SyncNow(w, keys).end.Completed?
    ensures PushedLogin(w.history, SyncNow(w, keys).world.history, w.device, x) <==>
            LoginPending(w, x) || Changed(w.sealed, Acknowledged(w.saved), x)
    ensures w.saved.outbox == [] ==>
      (PushedLogin(w.history, SyncNow(w, keys).world.history, w.device, x) <==> Changed(w.sealed, w.saved, x))
  {
    var first := FirstPull(w);
    var q := QueuedBySync(w, keys);
    var later := SyncNow(w, keys).world.history;
    forall y: Mutation
      ensures Pushed(w.history, later, w.device, y) <==>
              (InQueue(w.saved.outbox, y) && IndexOfId(w.history, y.id) < 0) || InQueue(q, y)
    {
      CompletedSyncPushes(w, keys, y);
    }
    CompletedSyncEnumerates(w, keys);
    FirstPullKeepsWork(w, keys, x.id);
    QueuedLoginIsChanged(first.meta, first.document, keys, first.world.device, first.world.issued, x);
    hide Pushed, NewMutations, SyncNow, DrainOutbox, PullRemote, Running, Changed;
    if LoginPending(w, x) {
      var p :| p in w.saved.outbox && Unapplied(w.history, p)
        && p.mutation.record.recordId == x.id && p.mutation.record.plaintext == Login(x);
      assert InQueue(w.saved.outbox, p.mutation);
    }
    if Uploaded(q, x) {
      var p :| p in q && p.mutation.record.recordId == x.id && p.mutation.record.plaintext == Login(x);
      assert InQueue(q, p.mutation);
    }
  }
}
