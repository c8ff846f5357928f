/** Whole runs: every operation of a device keeps the invariant, wherever it is cut short. */
module SyncSafety {
  import opened SyncModel
  import opened SyncHistory
  import opened SyncServer
  import opened SyncClient
  import opened SyncDocuments
  import opened SyncInvariant
  import opened SyncQueue
  import opened SyncResolve

  /******* Requests *******/

  ghost predicate Running(w: World) {
    WorldInv(w) && HonestNet(w.net, w.device)
  }

  /** Others committed in between; nothing on the device changed. */
  ghost predicate Waited(w: World, later: World) {
    && GrownByOthers(w.history, later.history, w.device)
    && HonestNet(later.net, w.device)
    && later == w.(history := later.history, net := later.net)
  }

  lemma ElsewhereWaits(w: World)
    requires Valid(w.history) && AllSealable(w.history) && HonestNet(w.net, w.device) && w.net != []
    ensures Waited(w, Elsewhere(w))
  {
    assert HonestBatches(w.net[0].others, w.device);
    CommitAllGrows(w.history, w.net[0].others, w.device);
    assert forall e :: e in w.net[1..] ==> e in w.net;
  }

  lemma PullAsked(w: World, cursor: nat)
    requires Valid(w.history) && AllSealable(w.history) && HonestNet(w.net, w.device) && cursor <= |w.history|
    ensures var (asked, answer) := HttpPull(w, cursor);
      && Waited(w, asked)
      && (answer.Some? ==>
            && answer.value.Ok?
            && RowsBetween(asked.history, cursor, answer.value.value.nextCursor, answer.value.value.changes)
            && (answer.value.value.hasMore ==> cursor < answer.value.value.nextCursor)
            && (!answer.value.value.hasMore ==> answer.value.value.nextCursor == |asked.history|))
  {
    if w.net == [] {
      assert w.history[..|w.history|] == w.history;
    } else {
      ElsewhereWaits(w);
      PageIsRows(Elsewhere(w).history, cursor, PULL_LIMIT);
    }
  }

  /******* Pulling *******/

  ghost predicate Pulling(w: World, l: Local) {
    Running(w) && PullInv(w.history, l, w.device, w.issued)
  }

  /** `later` differs from `w` by what others pushed and by what this device stored. */
  ghost predicate After(w: World, later: World) {
    GrownByOthers(w.history, later.history, w.device) && later.device == w.device && later.issued == w.issued
  }

  lemma PullTurnKeeps(w: World, l: Local)
    requires Pulling(w, l)
    ensures var (stored, taken, turn) := PullTurn(w, l);
      && Running(stored) && After(w, stored) && stored.sealed == w.sealed
      && (!turn.Stopped? ==> Pulling(stored, taken) && stored.saved == taken.meta)
      && (turn.Again? ==> l.meta.cursor < taken.meta.cursor)
      && (turn.LastPage? ==> taken.meta.cursor == |stored.history|)
  {
    PullAsked(w, l.meta.cursor);
    var (asked, answer) := HttpPull(w, l.meta.cursor);
    OthersPushing(w.history, asked.history, w.saved, w.device, w.issued);
    OthersPushing(w.history, asked.history, l.meta, w.device, w.issued);
    if answer.Some? {
      PageTaken(asked.history, l, answer.value.value, w.device, w.issued);
    }
  }

  /** A pull keeps the invariant wherever it stops. One that finishes has read to the end of
      the history, saved what it read, and sealed the document it made of it. */
  lemma {:induction false} PullKeeps(w: World, l: Local)
    requires Pulling(w, l) && (l.applied == 0 ==> w.sealed == l.document)
    ensures var p := PullFrom(w, l);
      && Running(p.world) && After(w, p.world)
      && (p.end.Finished? ==>
            && Pulling(p.world, Local(p.document, p.meta, p.applied))
            && p.world.saved == p.meta
            && p.world.sealed == p.document
            && p.meta.cursor == |p.world.history|)
    decreases |w.net|
  {
    PullTurnKeeps(w, l);
    var (stored, taken, turn) := PullTurn(w, l);
    match turn
    case Again =>
      AppliedGrows(w, l);
      PullKeeps(stored, taken);
      GrownTransitive(w.history, stored.history, PullFrom(stored, taken).world.history, w.device);
    case LastPage =>
      AppliedGrows(w, l);
    case Stopped(_) =>
  }

  /** The document changes only together with the count of versions taken over. */
  lemma {:induction false} ChangesCounted(l: Local, changes: seq<Change>)
    ensures ApplyChanges(l, changes).applied >= l.applied
    ensures ApplyChanges(l, changes).applied == l.applied ==> ApplyChanges(l, changes).document == l.document
  {
    if changes != [] {
      ChangesCounted(l, changes[..|changes| - 1]);
    }
  }

  lemma AppliedGrows(w: World, l: Local)
    ensures var (stored, taken, turn) := PullTurn(w, l);
      && taken.applied >= l.applied
      && (taken.applied == l.applied ==> taken.document == l.document)
  {
    var (asked, answer) := HttpPull(w, l.meta.cursor);
    if answer.Some? && answer.value.Ok? {
      ChangesCounted(l, answer.value.value.changes);
    }
  }

  /******* Draining *******/

  lemma SinglePush(h: History, m: Mutation)
    ensures PushBatch(h, [m]) ==
            match PushOne(h, m)
            case Err(e) => Err(e)
            case Ok((after, result)) => Ok((after, [result]))
  {
    assert PushBatch(h, [m][..0]) == Ok((h, []));
    if PushOne(h, m).Ok? {
      assert [] + [PushOne(h, m).value.1] == [PushOne(h, m).value.1];
    }
  }

  /** The metadata a drain works on is the saved one, and holds no conflict. */
  ghost predicate Draining(w: World, m: Metadata) {
    Running(w) && w.saved == m && m.conflicts == []
  }

  /** `later` differs from `w` by pushes, this device's among them, and by what it stored. */
  ghost predicate AfterPushing(w: World, later: World) {
    && Extends(w.history, later.history)
    && later.device == w.device && later.issued == w.issued && later.sealed == w.sealed
  }

  /** What the server makes of the head, and what that means for the device. */
  lemma HeadReceived(h: History, m: Metadata, device: nat, issued: nat)
    requires Inv(h, m, device, issued) && m.outbox != [] && m.conflicts == []
    ensures var head := m.outbox[0].mutation;
      var p := PushOne(h, head);
      && (p.Ok? ==>
            && Inv(p.value.0, m, device, issued) && Extends(h, p.value.0)
            && IndexOfId(p.value.0, head.id) >= 0)
      && (p.Err? ==>
            && NoneApplied(h, m)
            && (p.error.RevisionConflict? ==>
                  && p.error.recordId == head.record.recordId
                  && KnownRevision(m, p.error.recordId) != Revision(h, p.error.recordId)))
  {
    var head := m.outbox[0].mutation;
    assert BuiltOn(m, m.outbox[0], device, issued);
    PushOneSound(h, head);
    if IndexOfId(h, head.id) < 0 && PushOne(h, head).Ok? {
      HeadApplied(h, m, device, issued);
      IndexOfIdAppend(h, head, head.id);
    }
  }

  /** Pushing the head, whatever happens to the request and to the answer. */
  lemma HeadPushed(w: World, m: Metadata)
    requires Draining(w, m) && m.outbox != []
    ensures var (asked, answer) := HttpPush(w, m.outbox[0].mutation);
      && Draining(asked, m) && AfterPushing(w, asked)
      && (answer.Accepted? ==> IndexOfId(asked.history, m.outbox[0].mutation.id) >= 0)
      && (answer.Rejected? ==>
            && NoneApplied(asked.history, m)
            && (answer.refusal.RevisionConflict? ==>
                  && answer.refusal.recordId == m.outbox[0].mutation.record.recordId
                  && KnownRevision(m, answer.refusal.recordId) != Revision(asked.history, answer.refusal.recordId)))
  {
    if w.net == [] {
      assert w.history[..|w.history|] == w.history;
    } else {
      ElsewhereWaits(w);
      var there := Elsewhere(w);
      var head := m.outbox[0].mutation;
      OthersPushing(w.history, there.history, m, w.device, w.issued);
      RequestAnswered(w, head);
      HeadReceived(there.history, m, w.device, w.issued);
      hide HttpPush, Elsewhere, Inv, IndexOfId, PushOne, KnownRevision, NoneApplied, HonestNet, Extends, Revision;
      if PushOne(there.history, head).Ok? {
        ExtendsTransitive(w.history, there.history, PushOne(there.history, head).value.0);
      }
    }
  }

  /** The fates of a request: never received, or received with its answer lost or not. */
  lemma RequestAnswered(w: World, m: Mutation)
    requires w.net != []
    ensures var (asked, answer) := HttpPush(w, m);
      var there := Elsewhere(w);
      var p := PushOne(there.history, m);
      && (asked == there || (p.Ok? && asked == there.(history := p.value.0)))
      && (answer.Accepted? ==> p.Ok? && asked.history == p.value.0)
      && (answer.Rejected? ==> p.Err? && answer.refusal == p.error && asked == there)
  {
    SinglePush(Elsewhere(w).history, m);
    hide PushOne, PushBatch, CommitAll;
  }

  /** Draining keeps the invariant wherever it stops: the queue is empty, or its head is refused
      and nothing queued is on the server, or the sync is given up. */
  lemma {:induction false} DrainKeeps(w: World, m: Metadata, pushed: nat)
    requires Draining(w, m)
    ensures var d := DrainOutbox(w, m, pushed);
      && Running(d.world) && AfterPushing(w, d.world)
      && (d.end.Finished? ==> Draining(d.world, d.meta) && d.meta.outbox == [])
      && (d.end.Failed? && d.end.error.Refused? ==>
            && Draining(d.world, d.meta) && NoneApplied(d.world.history, d.meta)
            && d.meta.outbox != [])
      && (IsStale(d.end) ==>
            && d.end.error.refusal.recordId == d.meta.outbox[0].mutation.record.recordId
            && KnownRevision(d.meta, d.end.error.refusal.recordId)
               != Revision(d.world.history, d.end.error.refusal.recordId))
    decreases |w.net|
  {
    if m.outbox == [] {
      assert w.history[..|w.history|] == w.history;
    } else {
      HeadPushed(w, m);
      var (asked, answer) := HttpPush(w, m.outbox[0].mutation);
      if answer.Accepted? {
        HeadAcknowledged(asked.history, m, w.device, w.issued);
        var (stored, ok) := Save(asked, Acknowledge(m));
        if ok {
          DrainKeeps(stored, Acknowledge(m), pushed + 1);
          var d := DrainOutbox(stored, Acknowledge(m), pushed + 1);
          ExtendsTransitive(w.history, asked.history, d.world.history);
        }
      }
    }
  }

  /** A mutation that the server applied but that is still queued is the head of the queue. No
      conflict can be resolved while it is, and a drain that lets the sync go on to a pull has
      acknowledged it. */
  lemma AppliedIsAcknowledgedFirst(w: World, p: Pending)
    requires Running(w) && p in w.saved.outbox && IndexOfId(w.history, p.mutation.id) >= 0
    ensures p == w.saved.outbox[0]
    ensures forall r, v, choice, now ::
      ResolveConflict(w, r, v, choice, now) == Resolving(w, w.sealed, ConflictNotFound)
    ensures var d := DrainOutbox(w, w.saved, 0);
      d.end.Finished? || IsStale(d.end) ==> p !in d.meta.outbox && NoneApplied(d.world.history, d.meta)
  {
    DrainKeeps(w, w.saved, 0);
    var d := DrainOutbox(w, w.saved, 0);
    ExtendsIndexOfId(w.history, d.world.history, p.mutation.id);
  }

  /******* A sync *******/

  /** A pull starts with nothing queued on the server, and so with its invariant. */
  lemma PullStarts(w: World, m: Metadata)
    requires Draining(w, m) && NoneApplied(w.history, m)
    ensures Pulling(w, Local(w.sealed, m, 0))
  {
  }

  /** Queueing after a pull, saved or not. */
  lemma QueueAndSaveKeeps(w: World, m: Metadata, keys: seq<RecordId>)
    requires Draining(w, m)
    ensures var ((stored, queued), error) := QueueAndSave(w, w.sealed, m, keys);
      && Running(stored) && stored.history == w.history && stored.device == w.device && stored.sealed == w.sealed
      && (error.None? ==>
            && Draining(stored, queued) && Enumerates(keys, m)
            && queued == EnqueueLocalChanges(m, w.sealed, keys, w.device, w.issued))
  {
    var added := NewMutations(m, w.sealed, keys, w.device, w.issued);
    MoreIdsDrawn(w.history, m, w.device, w.issued, w.issued + |added|);
    if Enumerates(keys, m) && forall p <- added :: p.mutation.record.revision <= MAX_WIRE_BIGINT {
      QueueingKeeps(w.history, m, w.sealed, keys, w.device, w.issued);
    }
  }

  /** What a completed pull leaves is ready for queueing and draining. */
  lemma PulledIsDraining(p: Pulled)
    requires Running(p.world) && Pulling(p.world, Local(p.document, p.meta, p.applied))
    requires p.world.saved == p.meta && p.world.sealed == p.document && p.meta.conflicts == []
    ensures Draining(p.world, p.meta)
  {
  }

  lemma UploadAndPullKeeps(first: Pulled, replayed: nat, keys: seq<RecordId>)
    requires Draining(first.world, first.meta) && first.world.sealed == first.document
    ensures var o := UploadAndPull(first, replayed, keys);
      && Running(o.world) && o.world.device == first.world.device && Extends(first.world.history, o.world.history)
  {
    QueueAndSaveKeeps(first.world, first.meta, keys);
    var ((stored, queued), error) := QueueAndSave(first.world, first.document, first.meta, keys);
    assert stored.history[..|stored.history|] == stored.history;
    if error.None? {
      DrainKeeps(stored, queued, 0);
      var d := DrainOutbox(stored, queued, 0);
      if d.end.Finished? {
        PullStarts(d.world, d.meta);
        PullKeeps(d.world, Local(first.document, d.meta, 0));
        ExtendsTransitive(stored.history, d.world.history, PullRemote(d.world, first.document, d.meta).world.history);
      }
    }
  }

  /** A sync keeps the invariant wherever it ends: completed, waiting for the user, or given up
      at any request or any write. */
  lemma SyncKeeps(w: World, keys: seq<RecordId>)
    requires Running(w)
    ensures var o := SyncNow(w, keys);
      Running(o.world) && o.world.device == w.device && Extends(w.history, o.world.history)
  {
    assert w.history[..|w.history|] == w.history;
    if w.saved.conflicts == [] {
      DrainKeeps(w, w.saved, 0);
      var d := DrainOutbox(w, w.saved, 0);
      if IsStale(d.end) || d.end.Finished? {
        PullStarts(d.world, d.meta);
        PullKeeps(d.world, Local(w.sealed, d.meta, 0));
        var p := PullRemote(d.world, w.sealed, d.meta);
        ExtendsTransitive(w.history, d.world.history, p.world.history);
        if d.end.Finished? && p.end.Finished? && p.meta.conflicts == [] {
          PulledIsDraining(p);
          UploadAndPullKeeps(p, d.pushed, keys);
          ExtendsTransitive(w.history, p.world.history, UploadAndPull(p, d.pushed, keys).world.history);
        }
      }
    }
  }

  /******* Whole runs *******/

  datatype Operation =
    | OthersPush(batches: seq<seq<Mutation>>)
    | Edit(document: Document)
    | Sync(net: seq<NetEvent>, disk: seq<bool>, keys: seq<RecordId>)
    | Resolve(recordId: RecordId, remoteRevision: nat, resolution: Resolution, now: Time, disk: seq<bool>)

  function Perform(w: World, op: Operation): World {
    match op
    case OthersPush(batches) => w.(history := CommitAll(w.history, batches))
    case Edit(document) => w.(sealed := document)
    case Sync(net, disk, keys) => SyncNow(w.(net := net, disk := disk), keys).world
    case Resolve(r, remoteRevision, resolution, now, disk) =>
      ResolveConflict(w.(disk := disk), r, remoteRevision, resolution, now).world
  }

  function Run(w: World, ops: seq<Operation>): World {
    if ops == [] then w else Perform(Run(w, ops[..|ops| - 1]), ops[|ops| - 1])
  }

  /** Other devices are honest, and the user's document has one login per id. */
  ghost predicate Honest(op: Operation, device: nat) {
    match op
    case OthersPush(batches) => HonestBatches(batches, device)
    case Edit(document) => UniqueIds(document.items)
    case Sync(net, _, _) => HonestNet(net, device)
    case Resolve(_, _, _, _, _) => true
  }

  lemma PerformKeeps(w: World, op: Operation)
    requires WorldInv(w) && Honest(op, w.device)
    ensures WorldInv(Perform(w, op)) && Perform(w, op).device == w.device
    ensures Extends(w.history, Perform(w, op).history)
  {
    assert w.history[..|w.history|] == w.history;
    match op
    case OthersPush(batches) =>
      CommitAllGrows(w.history, batches, w.device);
      OthersPushing(w.history, CommitAll(w.history, batches), w.saved, w.device, w.issued);
    case Edit(_) =>
    case Sync(net, disk, keys) => SyncKeeps(w.(net := net, disk := disk), keys);
    case Resolve(r, remoteRevision, resolution, now, disk) =>
      ResolutionKeeps(w.(disk := disk), r, remoteRevision, resolution, now);
  }

  /** The invariant holds after every run of edits, syncs, resolutions and foreign pushes,
      whatever requests and writes fail in it. */
  lemma {:induction false} RunKeeps(w: World, ops: seq<Operation>)
    requires WorldInv(w) && forall op <- ops :: Honest(op, w.device)
    ensures WorldInv(Run(w, ops)) && Run(w, ops).device == w.device
    ensures Extends(w.history, Run(w, ops).history)
  {
    assert w.history[..|w.history|] == w.history;
    if ops != [] {
      var before := ops[..|ops| - 1];
      assert forall op :: op in before ==> op in ops;
      RunKeeps(w, before);
      PerformKeeps(Run(w, before), ops[|ops| - 1]);
      ExtendsTransitive(w.history, Run(w, before).history, Run(w, ops).history);
    }
  }

  /** In every run, each record that the server wrote up to the device's saved cursor is known to
      the device at exactly its current revision, in its records or as a stored conflict. */
  lemma RunKnowsUpToCursor(w: World, ops: seq<Operation>, r: RecordId)
    requires WorldInv(w) && forall op <- ops :: Honest(op, w.device)
    ensures var later := Run(w, ops);
      && later.saved.cursor <= |later.history|
      && (0 <= LastIndex(later.history, r) < later.saved.cursor ==>
            && Revision(later.history, r) == Count(later.history, r)
            && Knows(later.saved, r, Revision(later.history, r)))
  {
    RunKeeps(w, ops);
    RevisionCounts(Run(w, ops).history, r);
  }
}
