/** The client operations in the form the program has: loops that update the metadata object in
  place, and requests that other devices' pushes come in between. Each is proved to do what the
  functions of `SyncClient` say.
 */
module SyncDevice {
  import opened SyncModel
  import opened SyncHistory
  import opened SyncServer
  import opened SyncStore
  import C = SyncClient
  import opened SyncClient

  /** The metadata object that a sync loads, mutates and saves. */
  class MetadataObject {
    var cursor: nat
    var records: map<RecordId, RecordState>
    var outbox: seq<Pending>
    var conflicts: seq<Envelope>

    function Value(): Metadata
      reads this
    {
      Metadata(cursor, records, outbox, conflicts)
    }

    constructor (m: Metadata)
      ensures Value() == m
    {
      cursor, records, outbox, conflicts := m.cursor, m.records, m.outbox, m.conflicts;
    }
  }

  ghost predicate NetValidated(net: seq<NetEvent>) {
    forall e, batch, x :: e in net && batch in e.others && x in batch ==> Validated(x)
  }

  class Device {
    const id: nat
    const server: Store
    var saved: Metadata
    var sealed: Document
    var issued: nat
    var net: seq<NetEvent>
    var disk: seq<bool>

    ghost function State(): World
      reads this, server
    {
      World(id, server.history, saved, sealed, issued, net, disk)
    }

    ghost predicate IsValid()
      reads this, server
    {
      server.IsValid() && Valid(server.history) && NetValidated(net)
    }

    constructor (
      id: nat, server: Store, saved: Metadata, sealed: Document, issued: nat, net: seq<NetEvent>, disk: seq<bool>)
      requires server.IsValid() && Valid(server.history) && NetValidated(net)
      ensures IsValid() && this.server == server
      ensures State() == World(id, server.history, saved, sealed, issued, net, disk)
    {
      this.id, this.server, this.saved, this.sealed := id, server, saved, sealed;
      this.issued, this.net, this.disk := issued, net, disk;
    }

    /******* Requests *******/

    /** What other devices commit before the next request arrives. */
    method Elsewhere() returns (event: NetEvent)
      requires IsValid() && net != []
      modifies this`net, server
      ensures IsValid()
      ensures event == old(net)[0] && State() == C.Elsewhere(old(State()))
    {
      event := net[0];
      ghost var start := server.history;
      var others := event.others;
      for k := 0 to |others|
        modifies server
        invariant server.IsValid() && Valid(server.history)
        invariant CommitAll(start, others) == CommitAll(server.history, others[k..])
      {
        assert others[k] in event.others && event in old(net);
        assert others[k..][0] == others[k] && others[k..][1..] == others[k + 1..];
        var _ := server.PushMutations(others[k]);
      }
      assert others[|others|..] == [];
      assert forall e :: e in net[1..] ==> e in net;
      net := net[1..];
    }

    method HttpPush(m: Mutation) returns (answer: PushAnswer)
      requires IsValid() && Validated(m)
      modifies this`net, server
      ensures IsValid()
      ensures (State(), answer) == C.HttpPush(old(State()), m)
    {
      if net == [] {
        return Lost;
      }
      var event := Elsewhere();
      if !event.delivered {
        return Lost;
      }
      ghost var before := server.history;
      var reply := server.PushMutations([m]);
      if !event.answered {
        return Lost;
      }
      if reply.Err? {
        return Rejected(reply.error);
      }
      AcceptedBatch(before, [m]);
      // The client's check of the answer: one result, for this mutation, record and revision.
      assert |reply.value.0| == 1 && Reports(server.history, [m][0], reply.value.0[0]);
      return Accepted;
    }

    method HttpPull(cursor: nat) returns (answer: Option<Result<Page, PullError>>)
      requires IsValid()
      modifies this`net, server
      ensures IsValid()
      ensures (State(), answer) == C.HttpPull(old(State()), cursor)
    {
      if net == [] {
        return None;
      }
      var event := Elsewhere();
      var page := server.PullChanges(cursor, PULL_LIMIT);
      answer := if event.delivered && event.answered then Some(page) else None;
    }

    method Save(m: Metadata) returns (ok: bool)
      requires IsValid()
      modifies this`saved, this`disk
      ensures IsValid()
      ensures (State(), ok) == C.Save(old(State()), m)
    {
      if disk == [] {
        return false;
      }
      ok := disk[0];
      saved, disk := if ok then m else saved, disk[1..];
    }

    method Seal(document: Document) returns (ok: bool)
      requires IsValid()
      modifies this`sealed, this`disk
      ensures IsValid()
      ensures (State(), ok) == C.Seal(old(State()), document)
    {
      if disk == [] {
        return false;
      }
      ok := disk[0];
      sealed, disk := if ok then document else sealed, disk[1..];
    }

    /******* Draining *******/

    method DrainOutbox(metadata: MetadataObject) returns (pushed: nat, end: End)
      requires IsValid() && forall p <- metadata.outbox :: WellFormed(p.mutation)
      modifies this, server, metadata
      ensures IsValid()
      ensures forall p <- metadata.outbox :: WellFormed(p.mutation)
      ensures Drained(State(), metadata.Value(), pushed, end)
              == C.DrainOutbox(old(State()), old(metadata.Value()), 0)
    {
      pushed := 0;
      while |metadata.outbox| > 0
        invariant IsValid() && forall p <- metadata.outbox :: WellFormed(p.mutation)
        invariant C.DrainOutbox(State(), metadata.Value(), pushed)
                  == C.DrainOutbox(old(State()), old(metadata.Value()), 0)
        decreases |net|
      {
        var pending := metadata.outbox[0];
        var answer := HttpPush(pending.mutation);
        match answer {
          case Lost =>
            return pushed, Failed(NoAnswer);
          case Rejected(refusal) =>
            return pushed, Failed(Refused(refusal));
          case Accepted =>
        }
        metadata.records := metadata.records[pending.mutation.record.recordId :=
                              RecordState(pending.mutation.record.revision, pending.stamp, pending.stamp.None?)];
        assert forall p :: p in metadata.outbox[1..] ==> p in metadata.outbox;
        metadata.outbox := metadata.outbox[1..];
        pushed := pushed + 1;
        var ok := Save(metadata.Value());
        if !ok {
          return pushed, Failed(NotSaved);
        }
      }
      end := Finished;
    }

    /******* Pulling *******/

    method PullRemote(document: Document, metadata: MetadataObject)
      returns (nextDocument: Document, applied: nat, end: End)
      requires IsValid()
      modifies this, server, metadata
      ensures IsValid()
      ensures metadata.outbox == old(metadata.outbox)
      ensures Pulled(State(), nextDocument, metadata.Value(), applied, end)
              == C.PullRemote(old(State()), document, old(metadata.Value()))
    {
      nextDocument, applied := document, 0;
      var hasMore := true;
      while hasMore
        invariant IsValid() && metadata.outbox == old(metadata.outbox)
        invariant hasMore ==> PullFrom(State(), Local(nextDocument, metadata.Value(), applied))
                              == C.PullRemote(old(State()), document, old(metadata.Value()))
        invariant !hasMore ==> SealPulled(State(), Local(nextDocument, metadata.Value(), applied))
                               == C.PullRemote(old(State()), document, old(metadata.Value()))
        decreases hasMore, |net|
      {
        var answer := HttpPull(metadata.cursor);
        if answer.None? {
          return nextDocument, applied, Failed(NoAnswer);
        }
        if answer.value.Err? {
          if metadata.cursor == 0 {
            return nextDocument, applied, Failed(Ahead(answer.value.error.currentCursor));
          }
          metadata.cursor := 0;
          var ok := Save(metadata.Value());
          if !ok {
            return nextDocument, applied, Failed(NotSaved);
          }
        } else {
          var page := answer.value.value;
          nextDocument, applied := TakeChanges(nextDocument, applied, metadata, page.changes);
          metadata.cursor := page.nextCursor;
          hasMore := page.hasMore;
          var ok := Save(metadata.Value());
          if !ok {
            return nextDocument, applied, Failed(NotSaved);
          }
        }
      }
      if applied > 0 {
        var ok := Seal(nextDocument);
        if !ok {
          return nextDocument, applied, Failed(NotSealed);
        }
      }
      end := Finished;
    }

    /******* Queueing *******/

    /** The loop over the items. Ids are drawn one by one. */
    method EnqueueItems(items: seq<Item>, metadata: MetadataObject, queued: set<RecordId>)
      requires IsValid() && queued == QueuedIds(metadata.Value())
      modifies this`issued, metadata`outbox
      ensures IsValid()
      ensures var added := QueueItems(old(metadata.Value()), items, id, old(issued));
        metadata.outbox == old(metadata.outbox) + added && issued == old(issued) + |added|
    {
      ghost var m := metadata.Value();
      ghost var first := issued;
      for k := 0 to |items|
        invariant IsValid()
        invariant metadata.Value() == m.(outbox := m.outbox + QueueItems(m, items[..k], id, first))
        invariant issued == first + |QueueItems(m, items[..k], id, first)|
      {
        assert items[..k + 1][..k] == items[..k];
        var item := items[k];
        if item.id in queued {
          continue;
        }
        if item.id in metadata.records && !metadata.records[item.id].tombstoned
           && metadata.records[item.id].stamp == Some(item.updatedAt) {
          continue;
        }
        var base := if item.id in metadata.records then metadata.records[item.id].revision else 0;
        var record := Envelope(item.id, base + 1, Login(item));
        metadata.outbox := metadata.outbox +
          [Pending(Mutation(MutationId(id, issued), base, record), Some(item.updatedAt))];
        issued := issued + 1;
      }
      assert items[..|items|] == items;
    }

    /** The loop over the records; `m` is the metadata before anything was queued. */
    method EnqueueDeletions(
      document: Document, metadata: MetadataObject, keys: seq<RecordId>, queued: set<RecordId>, ghost m: Metadata)
      requires IsValid() && queued == QueuedIds(m) && metadata.records == m.records
      requires forall r <- keys :: r in m.records
      modifies this`issued, metadata`outbox
      ensures IsValid()
      ensures var added := QueueDeletions(m, document, keys, id, old(issued));
        metadata.outbox == old(metadata.outbox) + added && issued == old(issued) + |added|
    {
      ghost var first := issued;
      for k := 0 to |keys|
        invariant IsValid()
        invariant metadata.outbox == old(metadata.outbox) + QueueDeletions(m, document, keys[..k], id, first)
        invariant issued == first + |QueueDeletions(m, document, keys[..k], id, first)|
      {
        assert keys[..k + 1][..k] == keys[..k];
        var r := keys[k];
        var state := metadata.records[r];
        if state.tombstoned || r in queued || FindItem(document.items, r).Some? {
          continue;
        }
        var record := Envelope(r, state.revision + 1, Tombstone(document.updatedAt));
        metadata.outbox := metadata.outbox + [Pending(Mutation(MutationId(id, issued), state.revision, record), None)];
        issued := issued + 1;
      }
      assert keys[..|keys|] == keys;
    }

    method EnqueueLocalChanges(document: Document, metadata: MetadataObject, keys: seq<RecordId>)
      requires IsValid() && Enumerates(keys, metadata.Value())
      modifies this`issued, metadata`outbox
      ensures IsValid()
      ensures metadata.Value() == C.EnqueueLocalChanges(old(metadata.Value()), document, keys, id, old(issued))
      ensures issued == old(issued) + |NewMutations(old(metadata.Value()), document, keys, id, old(issued))|
    {
      ghost var m := metadata.Value();
      var queued := QueuedIds(metadata.Value());
      EnqueueItems(document.items, metadata, queued);
      EnqueueDeletions(document, metadata, keys, queued, m);
    }

    method QueueAndSave(document: Document, metadata: MetadataObject, keys: seq<RecordId>)
      returns (error: Option<SyncError>)
      requires IsValid() && forall p <- metadata.outbox :: WellFormed(p.mutation)
      modifies this`issued, this`saved, this`disk, metadata`outbox
      ensures IsValid()
      ensures error.None? ==> forall p <- metadata.outbox :: WellFormed(p.mutation)
      ensures ((State(), metadata.Value()), error)
              == C.QueueAndSave(old(State()), document, old(metadata.Value()), keys)
    {
      hide NewMutations, WellFormed;
      if !Enumerates(keys, metadata.Value()) {
        return Some(NotSaved);
      }
      ghost var m := metadata.Value();
      ghost var first := issued;
      var before := |metadata.outbox|;
      EnqueueLocalChanges(document, metadata, keys);
      var added := metadata.outbox[before..];
      assert added == NewMutations(m, document, keys, id, first);
      if exists p <- added :: p.mutation.record.revision > MAX_WIRE_BIGINT {
        return Some(RevisionOverflow);
      }
      AddedAreWellFormed(m, document, keys, id, first);
      assert metadata.outbox == m.outbox + added;
      var ok := Save(metadata.Value());
      error := if ok then None else Some(NotSaved);
    }

    /******* A sync *******/

    method SyncNow(keys: seq<RecordId>)
      returns (document: Document, pulled: nat, pushed: nat, conflicts: nat, end: SyncEnd)
      requires IsValid() && forall p <- saved.outbox :: WellFormed(p.mutation)
      modifies this, server
      ensures IsValid()
      ensures SyncOutcome(State(), document, pulled, pushed, conflicts, end) == C.SyncNow(old(State()), keys)
    {
      if saved.conflicts != [] {
        return sealed, 0, 0, |saved.conflicts|, AwaitingResolution;
      }
      var metadata := new MetadataObject(saved);
      var input := sealed;
      var replayed, drained := DrainOutbox(metadata);
      if IsStale(drained) {
        var conflicted, taken, pull := PullRemote(input, metadata);
        if pull.Failed? {
          return sealed, 0, 0, 0, Aborted(pull.error);
        }
        return conflicted, taken, 0, |metadata.conflicts|, AwaitingResolution;
      }
      if drained.Failed? {
        return sealed, 0, 0, 0, Aborted(drained.error);
      }
      var first, taken, pull := PullRemote(input, metadata);
      if pull.Failed? {
        return sealed, 0, 0, 0, Aborted(pull.error);
      }
      if |metadata.conflicts| > 0 {
        return first, taken, 0, |metadata.conflicts|, AwaitingResolution;
      }
      document, pulled, pushed, conflicts, end := UploadAndPull(first, taken, metadata, replayed, keys);
    }

    /** The second half of a sync. */
    method UploadAndPull(first: Document, taken: nat, metadata: MetadataObject, replayed: nat, keys: seq<RecordId>)
      returns (document: Document, pulled: nat, pushed: nat, conflicts: nat, end: SyncEnd)
      requires IsValid() && forall p <- metadata.outbox :: WellFormed(p.mutation)
      modifies this, server, metadata
      ensures IsValid()
      ensures SyncOutcome(State(), document, pulled, pushed, conflicts, end)
              == C.UploadAndPull(Pulled(old(State()), first, old(metadata.Value()), taken, Finished), replayed, keys)
    {
      var error := QueueAndSave(first, metadata, keys);
      if error.Some? {
        return sealed, 0, 0, 0, Aborted(error.value);
      }
      var uploaded, drained := DrainOutbox(metadata);
      if drained.Failed? {
        return sealed, 0, 0, 0, Aborted(drained.error);
      }
      var second, more, pull := PullRemote(first, metadata);
      if pull.Failed? {
        return sealed, 0, 0, 0, Aborted(pull.error);
      }
      return second, taken + more, replayed + uploaded, |metadata.conflicts|, Completed;
    }

    /******* Resolving *******/

    method ResolveConflict(r: RecordId, remoteRevision: nat, resolution: Resolution, now: Time)
      returns (document: Document, end: ResolveEnd)
      requires IsValid()
      modifies this
      ensures IsValid()
      ensures Resolving(State(), document, end)
              == C.ResolveConflict(old(State()), r, remoteRevision, resolution, now)
    {
      var selected := LatestConflict(saved.conflicts, r);
      if selected.None? {
        return sealed, ConflictNotFound;
      }
      var remote := selected.value;
      if remote.revision != remoteRevision {
        return sealed, StaleConflict;
      }
      LatestIsOf(saved.conflicts, r);
      var next := new MetadataObject(saved);
      next.conflicts := DropConflicts(next.conflicts, r);
      next.outbox := DropPending(next.outbox, r);
      next.records := next.records[r := StateOf(remote)];
      match resolution {
        case KeepLocal => end := ResolveKeepingLocal(remote, next, now); document := sealed;
        case UseRemote => document, end := ResolveUsingRemote(remote, next);
      }
    }

    method ResolveKeepingLocal(remote: Envelope, next: MetadataObject, now: Time) returns (end: ResolveEnd)
      requires IsValid() && next.Value() == Rebased(saved, remote)
      modifies this, next
      ensures IsValid() && sealed == old(sealed)
      ensures Resolving(State(), sealed, end) == C.ResolveKeepingLocal(old(State()), remote, now)
    {
      if remote.revision + 1 > MAX_WIRE_BIGINT {
        return ResolveFailed(RevisionOverflow);
      }
      var local := FindItem(sealed.items, remote.recordId);
      var record := Envelope(if local.Some? then local.value.id else remote.recordId, remote.revision + 1,
                             if local.Some? then Login(local.value) else Tombstone(now));
      var stamp := if local.Some? then Some(local.value.updatedAt) else None;
      next.outbox := next.outbox + [Pending(Mutation(MutationId(id, issued), remote.revision, record), stamp)];
      issued := issued + 1;
      var ok := Save(next.Value());
      end := if ok then Resolved else ResolveFailed(NotSaved);
    }

    method ResolveUsingRemote(remote: Envelope, next: MetadataObject) returns (document: Document, end: ResolveEnd)
      requires IsValid() && next.Value() == Rebased(saved, remote)
      modifies this
      ensures IsValid()
      ensures Resolving(State(), document, end) == C.ResolveUsingRemote(old(State()), remote)
    {
      var input := sealed;
      document := match remote.plaintext
                  case Login(item) => WithItem(input, item)
                  case Tombstone(deletedAt) => WithoutItem(input, remote.recordId, deletedAt);
      var ok := Seal(document);
      if !ok {
        return input, ResolveFailed(NotSealed);
      }
      ok := Save(next.Value());
      if !ok {
        ok := Seal(input);
        return input, if ok then ResolveFailed(NotSaved) else RollbackFailed;
      }
      end := Resolved;
    }
  }

  lemma {:induction false} LatestIsOf(conflicts: seq<Envelope>, r: RecordId)
    ensures LatestConflict(conflicts, r).Some? ==> LatestConflict(conflicts, r).value.recordId == r
  {
    if conflicts != [] {
      LatestIsOf(conflicts[..|conflicts| - 1], r);
    }
  }

  lemma {:induction false} UploadsAreSealable(m: Metadata, items: seq<Item>, device: nat, serial: nat)
    ensures forall p <- QueueItems(m, items, device, serial) ::
      p.mutation.record.revision <= MAX_WIRE_BIGINT ==> WellFormed(p.mutation)
  {
    if items != [] {
      UploadsAreSealable(m, items[..|items| - 1], device, serial);
    }
  }

  lemma {:induction false} DeletionsAreSealable(
    m: Metadata, document: Document, keys: seq<RecordId>, device: nat, serial: nat)
    ensures forall p <- QueueDeletions(m, document, keys, device, serial) ::
      p.mutation.record.revision <= MAX_WIRE_BIGINT ==> WellFormed(p.mutation)
  {
    if keys != [] {
      DeletionsAreSealable(m, document, keys[..|keys| - 1], device, serial);
    }
  }

  lemma AddedAreWellFormed(m: Metadata, document: Document, keys: seq<RecordId>, device: nat, serial: nat)
    ensures forall p <- NewMutations(m, document, keys, device, serial) ::
      p.mutation.record.revision <= MAX_WIRE_BIGINT ==> WellFormed(p.mutation)
  {
    var uploads := QueueItems(m, document.items, device, serial);
    UploadsAreSealable(m, document.items, device, serial);
    DeletionsAreSealable(m, document, keys, device, serial + |uploads|);
  }

  /** The inner loop of a pull, over the changes of one page. */
  method TakeChanges(document: Document, before: nat, metadata: MetadataObject, changes: seq<Change>)
    returns (nextDocument: Document, applied: nat)
    modifies metadata
    ensures Local(nextDocument, metadata.Value(), applied)
            == ApplyChanges(Local(document, old(metadata.Value()), before), changes)
    ensures metadata.outbox == old(metadata.outbox)
  {
    nextDocument, applied := document, before;
    for k := 0 to |changes|
      invariant Local(nextDocument, metadata.Value(), applied)
                == ApplyChanges(Local(document, old(metadata.Value()), before), changes[..k])
      invariant metadata.outbox == old(metadata.outbox)
    {
      assert changes[..k + 1][..k] == changes[..k];
      var record := changes[k].record;
      var r := record.recordId;
      if PendingFor(metadata.Value(), r) || HasLocalChange(nextDocument, metadata.Value(), r) {
        if !ConflictStored(metadata.Value(), r, record.revision) {
          metadata.conflicts := metadata.conflicts + [record];
        }
        continue;
      }
      match record.plaintext {
        case Login(item) =>
          nextDocument := WithItem(nextDocument, item);
          metadata.records := metadata.records[r := RecordState(record.revision, Some(item.updatedAt), false)];
        case Tombstone(deletedAt) =>
          nextDocument := WithoutItem(nextDocument, r, deletedAt);
          metadata.records := metadata.records[r := RecordState(record.revision, None, true)];
      }
      applied := applied + 1;
    }
    assert changes[..|changes|] == changes;
  }
}
