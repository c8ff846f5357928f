/** What a sync achieves: local work survives pulls, rejected pushes surface as conflicts, and a
  completed sync leaves the device with exactly the server's logins.
 */
module SyncOutcomes {
  import opened SyncModel
  import opened SyncHistory
  import opened SyncServer
  import opened SyncClient
  import opened SyncDocuments
  import opened SyncInvariant
  import opened SyncQueue
  import opened SyncSafety

  /******* A pull never discards local work *******/

  /** The record is still blocked, by the same pending mutation or the same local item, on top
      of the same recorded state. */
  ghost predicate Spared(l: Local, later: Local, r: RecordId) {
    && Blocked(later.document, later.meta, r)
    && FindItem(later.document.items, r) == FindItem(l.document.items, r)
    && KnownRevision(later.meta, r) == KnownRevision(l.meta, r)
    && later.meta.outbox == l.meta.outbox
    && forall v :: ConflictStored(l.meta, r, v) ==> ConflictStored(later.meta, r, v)
  }

  lemma ChangeSpares(l: Local, e: Envelope, r: RecordId)
    requires Blocked(l.document, l.meta, r) && Sealable(e)
    ensures Spared(l, ApplyChange(l, e), r)
    ensures e.recordId == r ==> ConflictStored(ApplyChange(l, e).meta, r, e.revision)
  {
    if Blocked(l.document, l.meta, e.recordId) {
      forall v | ConflictStored(l.meta, r, v)
        ensures ConflictStored(ApplyChange(l, e).meta, r, v)
      {
        StoredConflictGrows(l.meta, e, r, v);
      }
      StoredConflictGrows(l.meta, e, e.recordId, e.revision);
    } else {
      FindTakeOver(l.document, e, r);
    }
  }

  lemma {:induction false} ChangesSpare(l: Local, changes: seq<Change>, r: RecordId)
    requires Blocked(l.document, l.meta, r) && forall c <- changes :: Sealable(c.record)
    ensures Spared(l, ApplyChanges(l, changes), r)
    ensures forall c <- changes :: c.record.recordId == r ==>
      ConflictStored(ApplyChanges(l, changes).meta, r, c.record.revision)
  {
    if changes != [] {
      var before := changes[..|changes| - 1];
      var last := changes[|changes| - 1];
      assert changes == before + [last];
      ChangesSpare(l, before, r);
      ChangeSpares(ApplyChanges(l, before), last.record, r);
      InLonger(before, last);
    }
  }

  /** The changes of the page that one turn of a pull receives. */
  function Received(w: World, l: Local): seq<Change> {
    match HttpPull(w, l.meta.cursor).1
    case Some(Ok(page)) => page.changes
    case _ => []
  }

  /** Every change that a pull receives, over all its pages. */
  function Met(w: World, l: Local): seq<Change>
    decreases |w.net|
  {
    var (stored, taken, turn) := PullTurn(w, l);
    Received(w, l) + if turn.Again? then Met(stored, taken) else []
  }

  lemma ReceivedAreSealable(w: World, l: Local)
    requires Pulling(w, l)
    ensures forall c <- Received(w, l) :: Sealable(c.record)
  {
    PullAsked(w, l.meta.cursor);
    var (asked, answer) := HttpPull(w, l.meta.cursor);
    OthersPushing(w.history, asked.history, l.meta, w.device, w.issued);
    forall c | c in Received(w, l)
      ensures Sealable(c.record)
    {
      assert CurrentRow(asked.history, l.meta.cursor, answer.value.value.nextCursor, c);
      assert Sealable(asked.history[c.cursor - 1].record);
    }
  }

  /** A turn applies what it receives and moves the cursor. */
  lemma TurnApplies(w: World, l: Local)
    requires Pulling(w, l)
    ensures var taken := PullTurn(w, l).1;
      var applied := ApplyChanges(l, Received(w, l));
      taken == applied.(meta := applied.meta.(cursor := taken.meta.cursor))
  {
    PullAsked(w, l.meta.cursor);
  }

  lemma TurnSpares(w: World, l: Local, r: RecordId)
    requires Pulling(w, l) && Blocked(l.document, l.meta, r)
    ensures Spared(l, PullTurn(w, l).1, r)
    ensures forall c <- Received(w, l) :: c.record.recordId == r ==>
      ConflictStored(PullTurn(w, l).1.meta, r, c.record.revision)
  {
    ReceivedAreSealable(w, l);
    ChangesSpare(l, Received(w, l), r);
    TurnApplies(w, l);
    var taken := PullTurn(w, l).1;
    var applied := ApplyChanges(l, Received(w, l));
    assert forall v :: ConflictStored(taken.meta, r, v) == ConflictStored(applied.meta, r, v);
  }

  /** A record that is pending or locally changed when a pull starts has the same local item when
      it ends, and every remote version that the pull met is stored as a conflict. */
  lemma {:induction false} PullSparesLocalWork(w: World, l: Local, r: RecordId)
    requires Pulling(w, l) && Blocked(l.document, l.meta, r)
    ensures var p := PullFrom(w, l);
      && Spared(l, Local(p.document, p.meta, p.applied), r)
      && (forall c <- Met(w, l) :: c.record.recordId == r ==> ConflictStored(p.meta, r, c.record.revision))
    decreases |w.net|
  {
    TurnSpares(w, l, r);
    PullTurnKeeps(w, l);
    var (stored, taken, turn) := PullTurn(w, l);
    if turn.Again? {
      PullSparesLocalWork(stored, taken, r);
    }
  }

  /** The same for the first pull of a sync, in terms of what is stored when it completes. */
  lemma PullStoresRemoteVersions(w: World, m: Metadata, r: RecordId)
    requires Draining(w, m) && NoneApplied(w.history, m) && Blocked(w.sealed, m, r)
    ensures var p := PullRemote(w, w.sealed, m); p.end.Finished? ==>
      && FindItem(p.world.sealed.items, r) == FindItem(w.sealed.items, r)
      && p.world.saved.outbox == m.outbox
      && (Revision(p.world.history, r) != KnownRevision(m, r) ==>
            ConflictStored(p.world.saved, r, Revision(p.world.history, r)))
  {
    PullStarts(w, m);
    var l := Local(w.sealed, m, 0);
    PullSparesLocalWork(w, l, r);
    PullKeeps(w, l);
    var p := PullFrom(w, l);
    if p.end.Finished? && Revision(p.world.history, r) != KnownRevision(m, r) {
      KnownIsReached(w.history, m, r);
      KnownIsReached(p.world.history, p.meta, r);
      assert Revision(p.world.history, r) > 0;
      assert Knows(p.meta, r, Revision(p.world.history, r));
    }
  }

  /******* A rejected push always surfaces *******/

  /** If draining ends because the server refused a stale base, a pull that completes stores a
      conflict with the server's current revision of that very record. */
  lemma StalePushSurfaces(w: World, keys: seq<RecordId>)
    requires Running(w) && w.saved.conflicts == []
    ensures var d := DrainOutbox(w, w.saved, 0);
      var o := SyncNow(w, keys);
      IsStale(d.end) && !o.end.Aborted? ==>
        var r := d.end.error.refusal.recordId;
        && o.end.AwaitingResolution? && o.conflicts > 0
        && PendingFor(o.world.saved, r)
        && ConflictStored(o.world.saved, r, Revision(o.world.history, r))
  {
    DrainKeeps(w, w.saved, 0);
    var d := DrainOutbox(w, w.saved, 0);
    if IsStale(d.end) {
      var r := d.end.error.refusal.recordId;
      assert d.meta.outbox[0] in d.meta.outbox && PendingFor(d.meta, r);
      PullStoresRemoteVersions(d.world, d.meta, r);
      PullStarts(d.world, d.meta);
      PullKeeps(d.world, Local(w.sealed, d.meta, 0));
      var p := PullRemote(d.world, w.sealed, d.meta);
      KnownIsReached(d.world.history, d.meta, r);
      ExtendsLastIndex(d.world.history, p.world.history, r);
    }
  }

  /******* The second pull meets no conflict *******/

  /** Nothing is pending and nothing counts as locally changed. */
  ghost predicate NothingBlocked(document: Document, m: Metadata) {
    m.outbox == [] && forall r :: !HasLocalChange(document, m, r)
  }

  lemma UnblockedChange(l: Local, e: Envelope)
    requires NothingBlocked(l.document, l.meta) && Sealable(e)
    ensures NothingBlocked(ApplyChange(l, e).document, ApplyChange(l, e).meta)
    ensures ApplyChange(l, e).meta.conflicts == l.meta.conflicts
  {
    var after := ApplyChange(l, e);
    forall r
      ensures !HasLocalChange(after.document, after.meta, r)
    {
      assert !HasLocalChange(l.document, l.meta, r);
      FindTakeOver(l.document, e, r);
    }
  }

  lemma {:induction false} UnblockedChanges(l: Local, changes: seq<Change>)
    requires NothingBlocked(l.document, l.meta) && forall c <- changes :: Sealable(c.record)
    ensures NothingBlocked(ApplyChanges(l, changes).document, ApplyChanges(l, changes).meta)
    ensures ApplyChanges(l, changes).meta.conflicts == l.meta.conflicts
  {
    if changes != [] {
      var before := changes[..|changes| - 1];
      assert changes == before + [changes[|changes| - 1]];
      InLonger(before, changes[|changes| - 1]);
      UnblockedChanges(l, before);
      UnblockedChange(ApplyChanges(l, before), changes[|changes| - 1].record);
    }
  }

  lemma UnblockedTurn(w: World, l: Local)
    requires Pulling(w, l) && NothingBlocked(l.document, l.meta)
    ensures var taken := PullTurn(w, l).1;
      NothingBlocked(taken.document, taken.meta) && taken.meta.conflicts == l.meta.conflicts
  {
    ReceivedAreSealable(w, l);
    UnblockedChanges(l, Received(w, l));
    TurnApplies(w, l);
    var taken := PullTurn(w, l).1;
    var applied := ApplyChanges(l, Received(w, l));
    forall r
      ensures !HasLocalChange(taken.document, taken.meta, r)
    {
      assert !HasLocalChange(applied.document, applied.meta, r);
    }
  }

  /** A pull that starts with nothing blocked takes every version over, whatever is pushed
      between its pages. */
  lemma {:induction false} UnblockedPull(w: World, l: Local)
    requires Pulling(w, l) && NothingBlocked(l.document, l.meta)
    ensures var p := PullFrom(w, l);
      NothingBlocked(p.document, p.meta) && p.meta.conflicts == l.meta.conflicts
    decreases |w.net|
  {
    UnblockedTurn(w, l);
    PullTurnKeeps(w, l);
    var (stored, taken, turn) := PullTurn(w, l);
    if turn.Again? {
      UnblockedPull(stored, taken);
    }
  }
}
