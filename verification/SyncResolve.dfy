/** Resolving a conflict: which version can be chosen, and what the choice leaves behind. */
module SyncResolve {
  import opened SyncModel
  import opened SyncHistory
  import opened SyncClient
  import opened SyncDocuments
  import opened SyncInvariant
  import opened SyncQueue

  /** `e` is the numerically highest stored version of its record. */
  ghost predicate Highest(conflicts: seq<Envelope>, e: Envelope) {
    e in conflicts && forall x <- conflicts :: x.recordId == e.recordId ==> x.revision <= e.revision
  }

  lemma {:induction false} LatestIsHighest(conflicts: seq<Envelope>, r: RecordId)
    ensures var latest := LatestConflict(conflicts, r);
      && (latest.None? <==> forall x <- conflicts :: x.recordId != r)
      && (latest.Some? ==> latest.value.recordId == r && Highest(conflicts, latest.value))
  {
    if conflicts != [] {
      var before := conflicts[..|conflicts| - 1];
      LatestIsHighest(before, r);
      InLonger(before, conflicts[|conflicts| - 1]);
      assert conflicts == before + [conflicts[|conflicts| - 1]];
    }
  }

  lemma {:induction false} DroppedConflicts(conflicts: seq<Envelope>, r: RecordId)
    ensures forall e :: e in DropConflicts(conflicts, r) <==> e in conflicts && e.recordId != r
  {
    if conflicts != [] {
      var before := conflicts[..|conflicts| - 1];
      DroppedConflicts(before, r);
      InLonger(before, conflicts[|conflicts| - 1]);
      assert conflicts == before + [conflicts[|conflicts| - 1]];
    }
  }

  lemma OneMoreInOutbox(outbox: seq<Pending>, p: Pending)
    ensures OnePerRecord(outbox + [p]) <==>
      OnePerRecord(outbox) && forall x <- outbox ::
        x.mutation.record.recordId != p.mutation.record.recordId && x.mutation.id != p.mutation.id
  {
    var more := outbox + [p];
    assert more[|outbox|] == p;
    if OnePerRecord(more) {
      forall j, k | 0 <= j < k < |outbox|
        ensures outbox[j].mutation.record.recordId != outbox[k].mutation.record.recordId
        ensures outbox[j].mutation.id != outbox[k].mutation.id
      {
        assert more[j] == outbox[j] && more[k] == outbox[k];
      }
      forall x | x in outbox
        ensures x.mutation.record.recordId != p.mutation.record.recordId && x.mutation.id != p.mutation.id
      {
        var j :| 0 <= j < |outbox| && outbox[j] == x;
        assert more[j] == x;
      }
    }
  }

  lemma {:induction false} DroppedPending(outbox: seq<Pending>, r: RecordId)
    ensures forall p :: p in DropPending(outbox, r) <==> p in outbox && p.mutation.record.recordId != r
    ensures OnePerRecord(outbox) ==> OnePerRecord(DropPending(outbox, r))
  {
    if outbox != [] {
      var before := outbox[..|outbox| - 1];
      var last := outbox[|outbox| - 1];
      DroppedPending(before, r);
      var dropped := DropPending(before, r);
      assert DropPending(outbox, r) == if last.mutation.record.recordId == r then dropped else dropped + [last];
      assert outbox == before + [last];
      hide DropPending, OnePerRecord;
      InLonger(before, last);
      InLonger(dropped, last);
      OneMoreInOutbox(before, last);
      OneMoreInOutbox(dropped, last);
    }
  }

  /** While a conflict is stored, nothing that is queued has reached the server. */
  lemma ConflictMeansNoneApplied(h: History, m: Metadata, device: nat, issued: nat)
    requires Inv(h, m, device, issued) && m.conflicts != []
    ensures NoneApplied(h, m)
  {
  }

  lemma RebasedKnows(h: History, m: Metadata, remote: Envelope)
    requires Valid(h) && RecordsGenuine(h, m) && ConflictsGenuine(h, m) && KnowsUpToCursor(h, m)
    requires Highest(m.conflicts, remote)
    ensures KnowsUpToCursor(h, Rebased(m, remote))
  {
    var after := Rebased(m, remote);
    DroppedConflicts(m.conflicts, remote.recordId);
    forall q | 0 <= LastIndex(h, q) < m.cursor
      ensures Knows(after, q, Revision(h, q))
    {
      assert Knows(m, q, Revision(h, q));
      if q == remote.recordId {
        AppliedIsReached(h, remote);
      }
    }
  }

  /** Taking the highest stored version as the base keeps the invariant. */
  lemma RebasedKeeps(h: History, m: Metadata, remote: Envelope, device: nat, issued: nat)
    requires Inv(h, m, device, issued) && Highest(m.conflicts, remote)
    ensures Inv(h, Rebased(m, remote), device, issued)
    ensures NoneApplied(h, Rebased(m, remote))
    ensures !PendingFor(Rebased(m, remote), remote.recordId)
  {
    var after := Rebased(m, remote);
    var r := remote.recordId;
    ConflictMeansNoneApplied(h, m, device, issued);
    DroppedConflicts(m.conflicts, r);
    DroppedPending(m.outbox, r);
    RebasedKnows(h, m, remote);
    forall q | q in after.records
      ensures RecordedFrom(h, q, after.records[q])
    {
      if q == r {
        var i: nat :| i < |h| && h[i].record == remote;
        assert h[i].record.recordId == q;
      } else {
        assert RecordedFrom(h, q, m.records[q]);
      }
    }
    forall p | p in after.outbox
      ensures BuiltOn(after, p, device, issued)
    {
      assert BuiltOn(m, p, device, issued);
    }
  }

  lemma LocalVersionIsBuilt(
    m: Metadata, document: Document, r: RecordId, base: nat, now: Time, device: nat, serial: nat)
    requires KnownRevision(m, r) == base && base + 1 <= MAX_WIRE_BIGINT
    ensures var p := LocalVersion(document, r, MutationId(device, serial), base, now);
      && BuiltOn(m, p, device, serial + 1)
      && p.mutation.record.recordId == r
      && p.mutation.record.plaintext ==
         match FindItem(document.items, r) case Some(item) => Login(item) case None => Tombstone(now)
  {
    FindSound(document.items, r);
  }

  lemma QueueOne(h: History, m: Metadata, p: Pending, device: nat, issued: nat)
    requires Inv(h, m, device, issued) && NoneApplied(h, m)
    requires BuiltOn(m, p, device, issued + 1) && p.mutation.id.serial == issued
    requires !PendingFor(m, p.mutation.record.recordId)
    ensures Inv(h, m.(outbox := m.outbox + [p]), device, issued + 1)
  {
    var after := m.(outbox := m.outbox + [p]);
    InLonger(m.outbox, p);
    assert forall x <- m.outbox :: BuiltOn(m, x, device, issued);
    forall x | x in after.outbox
      ensures BuiltOn(after, x, device, issued + 1) && IndexOfId(h, x.mutation.id) < 0
    {
    }
    forall k | 0 <= k < |m.outbox|
      ensures m.outbox[k].mutation.record.recordId != p.mutation.record.recordId
      ensures m.outbox[k].mutation.id != p.mutation.id
    {
      assert m.outbox[k] in m.outbox;
    }
    QueuedKeepsKnowledge(h, m, after);
  }

  lemma MoreIdsDrawn(h: History, m: Metadata, device: nat, issued: nat, more: nat)
    requires Inv(h, m, device, issued) && issued <= more
    ensures Inv(h, m, device, more)
  {
    assert forall p <- m.outbox :: BuiltOn(m, p, device, issued) ==> BuiltOn(m, p, device, more);
  }

  /******* The outcome *******/

  /** At most one mutation of the record is queued, and then it is built on `revision`. */
  ghost predicate AtMostOneOn(m: Metadata, r: RecordId, revision: nat) {
    && (forall p <- m.outbox :: p.mutation.record.recordId == r ==> p.mutation.baseRevision == revision)
    && (forall j, k :: 0 <= j < k < |m.outbox| ==>
          m.outbox[j].mutation.record.recordId != r || m.outbox[k].mutation.record.recordId != r)
  }

  /** The record is resolved at `revision`: no conflict on it is left, those on others are, and
      at most one mutation of it is queued, built on that revision. */
  ghost predicate ResolvedAt(before: Metadata, after: Metadata, r: RecordId, revision: nat) {
    && KnownRevision(after, r) == revision
    && AtMostOneOn(after, r, revision)
    && (forall e :: e in after.conflicts <==> e in before.conflicts && e.recordId != r)
    && (forall q :: q != r ==> KnownRevision(after, q) == KnownRevision(before, q))
  }

  lemma RebasedResolves(m: Metadata, remote: Envelope)
    ensures ResolvedAt(m, Rebased(m, remote), remote.recordId, remote.revision)
    ensures !PendingFor(Rebased(m, remote), remote.recordId)
  {
    DroppedConflicts(m.conflicts, remote.recordId);
    DroppedPending(m.outbox, remote.recordId);
  }

  lemma QueuedResolves(m: Metadata, remote: Envelope, p: Pending)
    requires p.mutation.record.recordId == remote.recordId && p.mutation.baseRevision == remote.revision
    ensures var next := Rebased(m, remote);
      ResolvedAt(m, next.(outbox := next.outbox + [p]), remote.recordId, remote.revision)
  {
    var next := Rebased(m, remote);
    RebasedResolves(m, remote);
    InLonger(next.outbox, p);
    forall k | 0 <= k < |next.outbox|
      ensures next.outbox[k].mutation.record.recordId != remote.recordId
    {
      assert next.outbox[k] in next.outbox;
    }
  }

  /** The mutation that keeps the local version, or its deletion, on top of the remote one. */
  function Kept(w: World, remote: Envelope, now: Time): Pending {
    LocalVersion(w.sealed, remote.recordId, MutationId(w.device, w.issued), remote.revision, now)
  }

  function Queued(m: Metadata, p: Pending): Metadata {
    m.(outbox := m.outbox + [p])
  }

  lemma KeepingLocal(w: World, remote: Envelope, now: Time)
    requires WorldInv(w) && Highest(w.saved.conflicts, remote) && remote.revision < MAX_WIRE_BIGINT
    ensures var saved := Queued(Rebased(w.saved, remote), Kept(w, remote, now));
      && Inv(w.history, saved, w.device, w.issued + 1)
      && ResolvedAt(w.saved, saved, remote.recordId, remote.revision)
      && Kept(w, remote, now).mutation.record == Envelope(remote.recordId, remote.revision + 1,
            match FindItem(w.sealed.items, remote.recordId) case Some(item) => Login(item) case None => Tombstone(now))
  {
    RebasedKeeps(w.history, w.saved, remote, w.device, w.issued);
    RebasedResolves(w.saved, remote);
    LocalVersionIsBuilt(Rebased(w.saved, remote), w.sealed, remote.recordId, remote.revision, now, w.device, w.issued);
    QueueOne(w.history, Rebased(w.saved, remote), Kept(w, remote, now), w.device, w.issued);
    QueuedResolves(w.saved, remote, Kept(w, remote, now));
  }

  /** The login that a version opens to, if it is not a deletion. */
  function LoginOf(e: Envelope): Option<Item> {
    match e.plaintext
    case Login(item) => Some(item)
    case Tombstone(_) => None
  }

  /** The remote version is found under its id, and under the others what was found before. */
  ghost predicate FindsRemote(before: Document, after: Document, remote: Envelope) {
    && FindItem(after.items, remote.recordId) == LoginOf(remote)
    && forall id :: id != remote.recordId ==> FindItem(after.items, id) == FindItem(before.items, id)
  }

  lemma UsingRemote(w: World, remote: Envelope)
    requires WorldInv(w) && Highest(w.saved.conflicts, remote)
    ensures Inv(w.history, Rebased(w.saved, remote), w.device, w.issued)
    ensures ResolvedAt(w.saved, Rebased(w.saved, remote), remote.recordId, remote.revision)
    ensures UniqueIds(TakeOver(w.sealed, remote).items)
    ensures !Blocked(TakeOver(w.sealed, remote), Rebased(w.saved, remote), remote.recordId)
    ensures FindsRemote(w.sealed, TakeOver(w.sealed, remote), remote)
  {
    RebasedKeeps(w.history, w.saved, remote, w.device, w.issued);
    RebasedResolves(w.saved, remote);
    AppliedIsReached(w.history, remote);
    TakeOverUnique(w.sealed, remote);
    forall id {
      FindTakeOver(w.sealed, remote, id);
    }
  }

  /** Only what the device stored differs. */
  ghost predicate ServerUntouched(w: World, later: World) {
    later.history == w.history && later.device == w.device && later.net == w.net
  }

  /** Vault, metadata and the document in hand are as they were. */
  ghost predicate NothingStored(w: World, o: Resolving) {
    o.world.saved == w.saved && o.world.sealed == w.sealed && o.document == w.sealed
  }

  ghost predicate Works(w: World, k: nat) {
    k < |w.disk| && w.disk[k]
  }

  /** Keeping the local version: one write. The vault is as it was; the metadata takes the remote
      version as the base of the record, on which it queues what the vault holds. */
  ghost predicate KeepsLocal(w: World, o: Resolving, remote: Envelope, now: Time) {
    var r := remote.recordId;
    && (o.end.Resolved? <==> remote.revision < MAX_WIRE_BIGINT && Works(w, 0))
    && (o.end.Resolved? ==>
          && o.world.sealed == w.sealed && o.document == w.sealed
          && ResolvedAt(w.saved, o.world.saved, r, remote.revision)
          && o.world.saved == Queued(Rebased(w.saved, remote), Kept(w, remote, now))
          && Kept(w, remote, now).mutation.record == Envelope(r, remote.revision + 1,
               match FindItem(w.sealed.items, r) case Some(item) => Login(item) case None => Tombstone(now)))
    && (!o.end.Resolved? ==> o.end.ResolveFailed? && NothingStored(w, o))
  }

  /** Using the remote version: the vault is written first, then the metadata. Both end new, with the
      remote version under its id and everything else as it was; or both end old; or the vault is
      new, the metadata old, and the rollback error says so. */
  ghost predicate UsesRemote(w: World, o: Resolving, remote: Envelope) {
    var r := remote.recordId;
    && (o.end.Resolved? <==> Works(w, 0) && Works(w, 1))
    && (o.end.Resolved? ==>
          && o.world.sealed == o.document == TakeOver(w.sealed, remote)
          && FindsRemote(w.sealed, o.world.sealed, remote)
          && o.world.saved == Rebased(w.saved, remote) && ResolvedAt(w.saved, o.world.saved, r, remote.revision)
          && !Blocked(o.world.sealed, o.world.saved, r))
    && (o.end.RollbackFailed? <==> Works(w, 0) && !Works(w, 1) && !Works(w, 2))
    && (o.end.RollbackFailed? ==> o.world.sealed == TakeOver(w.sealed, remote) && o.world.saved == w.saved)
    && (!o.end.Resolved? && !o.end.RollbackFailed? ==> o.end.ResolveFailed? && NothingStored(w, o))
  }

  lemma ResolveKeepingLocalOutcome(w: World, remote: Envelope, now: Time)
    requires WorldInv(w) && Highest(w.saved.conflicts, remote)
    ensures var o := ResolveKeepingLocal(w, remote, now);
      ServerUntouched(w, o.world) && WorldInv(o.world) && KeepsLocal(w, o, remote, now)
  {
    MoreIdsDrawn(w.history, w.saved, w.device, w.issued, w.issued + 1);
    if remote.revision < MAX_WIRE_BIGINT {
      KeepingLocal(w, remote, now);
    }
    hide Inv, UniqueIds, Rebased, ResolvedAt, FindItem, Highest;
  }

  /** The fates of the writes: the vault, the metadata, and the vault again if the second fails. */
  lemma RemoteWrites(w: World, remote: Envelope)
    ensures var o := ResolveUsingRemote(w, remote);
      var next, rebased := TakeOver(w.sealed, remote), Rebased(w.saved, remote);
      && ServerUntouched(w, o.world) && o.world.issued == w.issued
      && (if Works(w, 0) && Works(w, 1) then
            o.end.Resolved? && o.document == next && o.world.sealed == next && o.world.saved == rebased
          else if Works(w, 0) && !Works(w, 2) then
            o.end.RollbackFailed? && o.world.sealed == next && o.world.saved == w.saved
          else o.end.ResolveFailed? && NothingStored(w, o))
  {
    hide TakeOver, Rebased;
  }

  lemma ResolveUsingRemoteOutcome(w: World, remote: Envelope)
    requires WorldInv(w) && Highest(w.saved.conflicts, remote)
    ensures var o := ResolveUsingRemote(w, remote);
      ServerUntouched(w, o.world) && WorldInv(o.world) && UsesRemote(w, o, remote)
  {
    UsingRemote(w, remote);
    RemoteWrites(w, remote);
    hide Inv, UniqueIds, Blocked, Rebased, ResolvedAt, TakeOver, Highest, FindsRemote, ResolveUsingRemote;
  }

  /** A record has one stored version of each revision, and so one highest. */
  lemma HighestIsUnique(w: World, a: Envelope, b: Envelope)
    requires WorldInv(w) && a.recordId == b.recordId
    requires Highest(w.saved.conflicts, a) && Highest(w.saved.conflicts, b)
    ensures a == b
  {
    var i: nat :| i < |w.history| && w.history[i].record == a;
    var j: nat :| j < |w.history| && w.history[j].record == b;
    RevisionNamesMutation(w.history, i, j);
  }

  /** The highest stored version of the record is the one that the user was shown. */
  ghost predicate Resolvable(w: World, remote: Envelope, r: RecordId, remoteRevision: nat) {
    Highest(w.saved.conflicts, remote) && remote.recordId == r && remote.revision == remoteRevision
  }

  /** The invariant holds however a resolution ends, and vault and metadata are as its end says. */
  lemma ResolutionKeeps(w: World, r: RecordId, remoteRevision: nat, resolution: Resolution, now: Time)
    requires WorldInv(w)
    ensures var o := ResolveConflict(w, r, remoteRevision, resolution, now);
      && ServerUntouched(w, o.world) && WorldInv(o.world)
      && (forall e :: Resolvable(w, e, r, remoteRevision) ==>
            match resolution
            case KeepLocal => KeepsLocal(w, o, e, now)
            case UseRemote => UsesRemote(w, o, e))
      && ((forall e :: !Resolvable(w, e, r, remoteRevision)) ==>
            (o.end.ConflictNotFound? || o.end.StaleConflict?) && o.world == w && o.document == w.sealed)
  {
    LatestIsHighest(w.saved.conflicts, r);
    var latest := LatestConflict(w.saved.conflicts, r);
    forall e | Resolvable(w, e, r, remoteRevision)
      ensures latest == Some(e)
    {
      HighestIsUnique(w, e, latest.value);
    }
    if latest.Some? && latest.value.revision == remoteRevision {
      assert Resolvable(w, latest.value, r, remoteRevision);
      match resolution
      case KeepLocal => ResolveKeepingLocalOutcome(w, latest.value, now);
      case UseRemote => ResolveUsingRemoteOutcome(w, latest.value);
    }
    hide LatestConflict, Highest, WorldInv, ServerUntouched, KeepsLocal, UsesRemote,
      ResolveKeepingLocal, ResolveUsingRemote;
  }

  /******* Trying again *******/

  /** Using the remote version can be tried again after it failed, even after a failed rollback, and
      leaves what it would have left at once. */
  lemma UsingRemoteAgain(w: World, r: RecordId, remoteRevision: nat, now: Time, disk: seq<bool>, e: Envelope)
    requires WorldInv(w) && Resolvable(w, e, r, remoteRevision)
    requires !ResolveConflict(w, r, remoteRevision, UseRemote, now).end.Resolved?
    ensures var w' := ResolveConflict(w, r, remoteRevision, UseRemote, now).world.(disk := disk);
      var o := ResolveConflict(w', r, remoteRevision, UseRemote, now);
      && (o.end.Resolved? <==> Works(w', 0) && Works(w', 1))
      && (o.end.Resolved? ==> o.world.sealed == TakeOver(w.sealed, e) && o.world.saved == Rebased(w.saved, e))
  {
    ResolutionKeeps(w, r, remoteRevision, UseRemote, now);
    var w' := ResolveConflict(w, r, remoteRevision, UseRemote, now).world.(disk := disk);
    assert Resolvable(w', e, r, remoteRevision);
    ResolutionKeeps(w', r, remoteRevision, UseRemote, now);
    TakeOverTwice(w.sealed, e);
    hide ResolveConflict, TakeOver, Rebased, Inv, Resolvable, ResolvedAt, FindsRemote, Blocked;
  }

  /** Exactly the numerically highest stored revision of a record can be resolved. */
  lemma OnlyHighestResolves(w: World, r: RecordId, remoteRevision: nat, resolution: Resolution, now: Time)
    ensures var o := ResolveConflict(w, r, remoteRevision, resolution, now);
      var stored := exists e <- w.saved.conflicts :: e.recordId == r;
      var highest := exists e :: Highest(w.saved.conflicts, e) && e.recordId == r && e.revision == remoteRevision;
      && (o.end.ConflictNotFound? <==> !stored)
      && (o.end.StaleConflict? <==> stored && !highest)
  {
    LatestIsHighest(w.saved.conflicts, r);
    var latest := LatestConflict(w.saved.conflicts, r);
    if latest.Some? {
      assert Highest(w.saved.conflicts, latest.value);
    }
  }
}
