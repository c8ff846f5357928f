/** When a sync completes: with nobody else pushing, every request and write succeeding and
  enough of both, exactly if it starts without a conflict and meets none.
 */
module SyncCompletion {
  import opened SyncModel
  import opened SyncHistory
  import opened SyncServer
  import opened SyncClient
  import opened SyncDocuments
  import opened SyncInvariant
  import opened SyncQueue
  import opened SyncSafety
  import opened SyncOutcomes
  import opened SyncConvergence
  import opened SyncOwnWork

  /** Nobody else pushes, and no request, answer or write is lost. */
  ghost predicate Undisturbed(w: World) {
    && (forall e <- w.net :: e.others == [] && e.delivered && e.answered)
    && (forall works <- w.disk :: works)
  }

  lemma RequestArrives(w: World)
    requires Undisturbed(w) && w.net != []
    ensures w.net[0].delivered && w.net[0].answered && Elsewhere(w) == w.(net := w.net[1..])
    ensures Undisturbed(Elsewhere(w))
  {
    assert w.net[0] in w.net;
    assert forall e :: e in w.net[1..] ==> e in w.net;
  }

  lemma WriteSucceeds(w: World, m: Metadata, document: Document)
    requires Undisturbed(w) && w.disk != []
    ensures Save(w, m) == (w.(saved := m, disk := w.disk[1..]), true)
    ensures Seal(w, document) == (w.(sealed := document, disk := w.disk[1..]), true)
    ensures Undisturbed(w.(disk := w.disk[1..]))
  {
    assert w.disk[0] in w.disk;
    assert forall works :: works in w.disk[1..] ==> works in w.disk;
  }

  /******* Draining *******/

  /** The server would accept the mutation: it has it, or its base is current. */
  ghost predicate Current(h: History, p: Pending) {
    Unapplied(h, p) ==> p.mutation.baseRevision == Revision(h, p.mutation.record.recordId)
  }

  ghost predicate AllCurrent(h: History, outbox: seq<Pending>) {
    forall p <- outbox :: Current(h, p)
  }

  lemma AllCurrentSplit(h: History, outbox: seq<Pending>)
    requires outbox != []
    ensures AllCurrent(h, outbox) <==> Current(h, outbox[0]) && AllCurrent(h, outbox[1..])
  {
    assert outbox == [outbox[0]] + outbox[1..];
    hide Current;
  }

  /** Queued mutations only were added: another record keeps its newest entry. */
  ghost predicate OnlyQueuedMove(h: History, later: History, m: Metadata) {
    && Extends(h, later) && |later| <= |h| + |m.outbox|
    && (forall i :: |h| <= i < |later| ==> InQueue(m.outbox, later[i]))
    && forall r :: if PendingFor(m, r) then LastIndex(later, r) >= m.cursor else LastIndex(later, r) == LastIndex(h, r)
  }

  /** What the server makes of the head, and what that leaves of the rest. */
  lemma HeadAccepted(h: History, m: Metadata, device: nat, issued: nat)
    requires Inv(h, m, device, issued) && m.outbox != [] && m.conflicts == [] && |h| < MAX_WIRE_BIGINT
    ensures var head := m.outbox[0].mutation;
      var p := PushOne(h, head);
      && (p.Ok? <==> Current(h, m.outbox[0]))
      && (p.Err? ==> p.error.RevisionConflict?)
      && (p.Ok? ==>
            && (p.value.0 == h || p.value.0 == h + [head]) && IndexOfId(p.value.0, head.id) >= m.cursor
            && (AllCurrent(p.value.0, m.outbox[1..]) <==> AllCurrent(h, m.outbox[1..])))
  {
    var head := m.outbox[0].mutation;
    var p := PushOne(h, head);
    assert m.outbox[0] in m.outbox;
    if p.Ok? {
      IndexOfIdAppend(h, head, head.id);
      RestStaysCurrent(h, m.outbox);
    }
    hide AllCurrent, OutboxBuilt, KnowsUpToCursor, RecordsGenuine;
  }

  /** Pushing the head says nothing about the bases of the rest. */
  lemma RestStaysCurrent(h: History, outbox: seq<Pending>)
    requires outbox != [] && OnePerRecord(outbox)
    ensures AllCurrent(h + [outbox[0].mutation], outbox[1..]) <==> AllCurrent(h, outbox[1..])
  {
    var head := outbox[0].mutation;
    forall x | x in outbox[1..]
      ensures Current(h + [head], x) <==> Current(h, x)
    {
      var k :| 1 <= k < |outbox| && outbox[k] == x;
      IndexOfIdAppend(h, head, x.mutation.id);
      LastIndexAppend(h, head, x.mutation.record.recordId);
    }
  }

  /** The world once the answer to an accepted push is stored. */
  function Stored(w: World, h: History, m: Metadata): World
    requires w.net != [] && w.disk != []
  {
    w.(history := h, saved := m, net := w.net[1..], disk := w.disk[1..])
  }

  /** One turn of an undisturbed drain: it goes on exactly if the server accepts the head. */
  lemma DrainTurn(w: World, m: Metadata, pushed: nat)
    requires Undisturbed(w) && m.outbox != [] && w.net != [] && w.disk != []
    ensures var p := PushOne(w.history, m.outbox[0].mutation);
      && (p.Err? ==> DrainOutbox(w, m, pushed) == Drained(w.(net := w.net[1..]), m, pushed, Failed(Refused(p.error))))
      && Undisturbed(w.(net := w.net[1..]))
      && (p.Ok? ==>
            var after := Stored(w, p.value.0, Acknowledge(m));
            && HttpPush(w, m.outbox[0].mutation) == (w.(history := p.value.0, net := w.net[1..]), Accepted)
            && DrainOutbox(w, m, pushed) == DrainOutbox(after, Acknowledge(m), pushed + 1)
            && Undisturbed(after))
  {
    RequestArrives(w);
    SinglePush(w.history, m.outbox[0].mutation);
    var (asked, answer) := HttpPush(w, m.outbox[0].mutation);
    hide PushOne, PushBatch, Elsewhere;
    if answer.Accepted? {
      WriteSucceeds(asked, Acknowledge(m), w.sealed);
    }
    hide HttpPush, Save, Acknowledge;
  }

  lemma DrainTurnKeeps(w: World, m: Metadata)
    requires Draining(w, m) && Undisturbed(w) && m.outbox != [] && w.net != [] && w.disk != []
    ensures var p := PushOne(w.history, m.outbox[0].mutation);
      p.Ok? ==> Draining(Stored(w, p.value.0, Acknowledge(m)), Acknowledge(m))
  {
    DrainTurn(w, m, 0);
    HeadPushed(w, m);
    hide Inv, PushOne, HttpPush, DrainOutbox, UniqueIds, HonestNet, Undisturbed, IndexOfId;
    var (asked, answer) := HttpPush(w, m.outbox[0].mutation);
    if answer.Accepted? {
      HeadAcknowledged(asked.history, m, w.device, w.issued);
    }
  }

  /** An undisturbed drain finishes exactly if the server would accept each queued mutation, and
      otherwise meets the first one with a stale base. */
  lemma {:induction false} UndisturbedDrain(w: World, m: Metadata, pushed: nat)
    requires Draining(w, m) && Undisturbed(w)
    requires |w.net| >= |m.outbox| && |w.disk| >= |m.outbox| && |w.history| + |m.outbox| <= MAX_WIRE_BIGINT
    ensures var d := DrainOutbox(w, m, pushed);
      && (d.end.Finished? <==> AllCurrent(w.history, m.outbox))
      && (d.end.Finished? || IsStale(d.end))
      && (d.end.Finished? ==> OnlyQueuedMove(w.history, d.world.history, m))
      && Undisturbed(d.world) && d.meta.cursor == m.cursor && |d.world.history| <= |w.history| + |m.outbox|
      && |d.world.net| >= |w.net| - |m.outbox| && |d.world.disk| >= |w.disk| - |m.outbox|
    decreases |m.outbox|
  {
    if m.outbox == [] {
      assert w.history[..|w.history|] == w.history;
    } else {
      var h, head, rest := w.history, m.outbox[0], Acknowledge(m);
      DrainTurn(w, m, pushed);
      DrainTurnKeeps(w, m);
      HeadAccepted(h, m, w.device, w.issued);
      var p := PushOne(h, head.mutation);
      AllCurrentSplit(h, m.outbox);
      assert rest.outbox == m.outbox[1..] && rest.cursor == m.cursor;
      hide PushOne, Draining, Undisturbed, DrainOutbox, Current, AllCurrent, Acknowledge, OnlyQueuedMove;
      if p.Ok? {
        var after := Stored(w, p.value.0, rest);
        UndisturbedDrain(after, rest, pushed + 1);
        var d := DrainOutbox(after, rest, pushed + 1);
        if d.end.Finished? {
          QueuedMoveInTwo(h, p.value.0, d.world.history, m);
        }
      }
    }
  }

  lemma QueuedMoveInTwo(h: History, mid: History, later: History, m: Metadata)
    requires m.outbox != [] && (mid == h || mid == h + [m.outbox[0].mutation])
    requires IndexOfId(mid, m.outbox[0].mutation.id) >= m.cursor
    requires mid[IndexOfId(mid, m.outbox[0].mutation.id)] == m.outbox[0].mutation
    requires OnlyQueuedMove(mid, later, Acknowledge(m))
    ensures OnlyQueuedMove(h, later, m)
  {
    var head := m.outbox[0].mutation;
    assert m.outbox == [m.outbox[0]] + m.outbox[1..];
    assert Extends(h, mid);
    ExtendsTransitive(h, mid, later);
    forall i | |h| <= i < |later|
      ensures InQueue(m.outbox, later[i])
    {
      if i < |mid| {
        assert later[i] == mid[i] == head && m.outbox[0] in m.outbox;
      } else {
        assert InQueue(Acknowledge(m).outbox, later[i]);
      }
    }
    forall r
      ensures if PendingFor(m, r) then LastIndex(later, r) >= m.cursor else LastIndex(later, r) == LastIndex(h, r)
    {
      LastIndexAppend(h, head, r);
      assert PendingFor(m, r) <==> head.record.recordId == r || PendingFor(Acknowledge(m), r);
      if head.record.recordId == r {
        ExtendsLastIndex(mid, later, r);
        assert LastIndex(mid, r) >= IndexOfId(mid, head.id);
      }
    }
  }

  /******* Pulling *******/

  /** A remote version of the record is still to come, and would be kept aside. */
  ghost predicate WouldConflict(h: History, l: Local, r: RecordId) {
    Blocked(l.document, l.meta, r) && LastIndex(h, r) >= l.meta.cursor
  }

  ghost predicate MeetsNothing(h: History, l: Local) {
    l.meta.conflicts == [] && forall r :: !WouldConflict(h, l, r)
  }

  /** One turn of an undisturbed pull. */
  lemma PageArrives(w: World, l: Local)
    requires Pulling(w, l) && Undisturbed(w) && w.net != [] && w.disk != []
    ensures var (stored, taken, turn) := PullTurn(w, l);
      && !turn.Stopped?
      && stored == Stored(w, w.history, taken.meta) && Undisturbed(stored)
      && RowsBetween(w.history, l.meta.cursor, taken.meta.cursor, Received(w, l))
  {
    RequestArrives(w);
    PullAsked(w, l.meta.cursor);
    var (asked, answer) := HttpPull(w, l.meta.cursor);
    WriteSucceeds(asked, TakePage(l, answer.value.value).meta, w.sealed);
    hide Undisturbed, RowsBetween, Save, PullPage, ApplyChanges;
  }

  lemma {:induction false} ChangesKeepConflicts(l: Local, changes: seq<Change>)
    ensures l.meta.conflicts != [] ==> ApplyChanges(l, changes).meta.conflicts != []
  {
    if changes != [] {
      ChangesKeepConflicts(l, changes[..|changes| - 1]);
    }
  }

  /** Versions of records that are not blocked add no conflict. */
  lemma {:induction false} UnblockedAddNone(l: Local, changes: seq<Change>)
    requires forall c <- changes :: Sealable(c.record) && !Blocked(l.document, l.meta, c.record.recordId)
    ensures ApplyChanges(l, changes).meta.conflicts == l.meta.conflicts
  {
    if changes != [] {
      var before, last := changes[..|changes| - 1], changes[|changes| - 1];
      assert changes == before + [last];
      InLonger(before, last);
      UnblockedAddNone(l, before);
      ChangesKeepUnblocked(l, before, last.record.recordId);
    }
  }

  lemma TurnMeetsNothing(w: World, l: Local)
    requires Pulling(w, l) && Undisturbed(w) && w.net != [] && w.disk != [] && MeetsNothing(w.history, l)
    ensures MeetsNothing(w.history, PullTurn(w, l).1)
  {
    PageArrives(w, l);
    ReceivedAreSealable(w, l);
    TurnApplies(w, l);
    var taken := PullTurn(w, l).1;
    var changes := Received(w, l);
    forall c | c in changes
      ensures !Blocked(l.document, l.meta, c.record.recordId)
    {
      assert CurrentRow(w.history, l.meta.cursor, taken.meta.cursor, c);
      assert !WouldConflict(w.history, l, c.record.recordId);
    }
    UnblockedAddNone(l, changes);
    forall r
      ensures !WouldConflict(w.history, taken, r)
    {
      assert !WouldConflict(w.history, l, r);
      if !Blocked(l.document, l.meta, r) {
        ChangesKeepUnblocked(l, changes, r);
      }
    }
  }

  lemma TurnMeetsConflict(w: World, l: Local)
    requires Pulling(w, l) && Undisturbed(w) && w.net != [] && w.disk != [] && !MeetsNothing(w.history, l)
    ensures !MeetsNothing(w.history, PullTurn(w, l).1)
  {
    PageArrives(w, l);
    TurnApplies(w, l);
    ChangesKeepConflicts(l, Received(w, l));
    var taken := PullTurn(w, l).1;
    if r :| WouldConflict(w.history, l, r) {
      TurnSpares(w, l, r);
      if LastIndex(w.history, r) < taken.meta.cursor {
        var k := PageDeliversRevision(w.history, l.meta.cursor, taken.meta.cursor, Received(w, l), r);
        assert ConflictStored(taken.meta, r, Received(w, l)[k].record.revision);
      } else {
        assert WouldConflict(w.history, taken, r);
      }
    }
  }

  /** An undisturbed pull with requests and writes enough finishes. It meets a conflict exactly if
      a blocked record has a version that it has not read. */
  lemma {:induction false} UndisturbedPull(w: World, l: Local)
    requires Pulling(w, l) && Undisturbed(w)
    requires |w.net| > |w.history| - l.meta.cursor && |w.disk| > |w.history| - l.meta.cursor + 1
    ensures var p := PullFrom(w, l);
      && p.end.Finished? && Undisturbed(p.world)
      && p.world.history == w.history && p.world.issued == w.issued
      && |p.world.net| >= |w.net| - (|w.history| - l.meta.cursor + 1)
      && |p.world.disk| >= |w.disk| - (|w.history| - l.meta.cursor + 2)
      && (p.meta.conflicts == [] <==> MeetsNothing(w.history, l))
    decreases |w.net|
  {
    PageArrives(w, l);
    PullTurnKeeps(w, l);
    var (stored, taken, turn) := PullTurn(w, l);
    if MeetsNothing(w.history, l) {
      TurnMeetsNothing(w, l);
    } else {
      TurnMeetsConflict(w, l);
    }
    hide Pulling, PullTurn, Undisturbed, RowsBetween, MeetsNothing;
    if turn.Again? {
      UndisturbedPull(stored, taken);
    } else {
      ReadToEnd(w.history, taken);
      WriteSucceeds(stored, taken.meta, taken.document);
    }
  }

  lemma ReadToEnd(h: History, l: Local)
    requires l.meta.cursor >= |h|
    ensures MeetsNothing(h, l) <==> l.meta.conflicts == []
  {
  }

  /******* A server that lost its history *******/

  /** The pull brings the current version of the record. */
  ghost predicate Brings(w: World, l: Local, r: RecordId) {
    LastIndex(w.history, r) >= 0 && exists c <- Met(w, l) :: c.record == w.history[LastIndex(w.history, r)].record
  }

  lemma PageOrReset(w: World, l: Local)
    requires Undisturbed(w) && w.net != [] && w.disk != []
    ensures var (stored, taken, turn) := PullTurn(w, l);
      && stored == Stored(w, w.history, taken.meta) && Undisturbed(stored)
      && (l.meta.cursor > |w.history| ==> turn.Again? && taken == l.(meta := l.meta.(cursor := 0)))
      && (l.meta.cursor <= |w.history| ==>
            && RowsBetween(w.history, l.meta.cursor, taken.meta.cursor, Received(w, l))
            && (turn.Again? ==> l.meta.cursor < taken.meta.cursor)
            && (!turn.Again? ==> turn.LastPage? && taken.meta.cursor == |w.history|))
  {
    RequestArrives(w);
    var asked := w.(net := w.net[1..]);
    if l.meta.cursor <= |w.history| {
      PageIsRows(w.history, l.meta.cursor, PULL_LIMIT);
      WriteSucceeds(asked, TakePage(l, PullPage(w.history, l.meta.cursor, PULL_LIMIT).value).meta, w.sealed);
    } else {
      WriteSucceeds(asked, l.meta.(cursor := 0), w.sealed);
    }
    hide Undisturbed, RowsBetween, Save, ApplyChanges;
  }

  /** Whatever the device holds, an undisturbed pull brings every current version after its cursor. */
  lemma {:induction false} PullBrings(w: World, l: Local, r: RecordId)
    requires Undisturbed(w) && l.meta.cursor <= |w.history|
    requires |w.net| > |w.history| - l.meta.cursor && |w.disk| > |w.history| - l.meta.cursor + 1
    ensures PullFrom(w, l).end.Finished? && PullFrom(w, l).meta.cursor == |w.history|
    ensures LastIndex(w.history, r) >= l.meta.cursor ==> Brings(w, l, r)
    decreases |w.net|
  {
    PageOrReset(w, l);
    var (stored, taken, turn) := PullTurn(w, l);
    var i := LastIndex(w.history, r);
    if l.meta.cursor <= i < taken.meta.cursor {
      var k := PageDeliversRevision(w.history, l.meta.cursor, taken.meta.cursor, Received(w, l), r);
      assert Received(w, l)[k] in Met(w, l);
    }
    hide PullTurn, Undisturbed, RowsBetween, LastIndex;
    if turn.Again? {
      PullBrings(stored, taken, r);
      assert forall c :: c in Met(stored, taken) ==> c in Met(w, l);
    } else {
      WriteSucceeds(stored, taken.meta, taken.document);
    }
  }

  /** A device that has read further than the server's history reaches starts over: it reads the
      current version of every record, and ends at the end of the history. */
  lemma CursorResetReadsAll(w: World, l: Local, r: RecordId)
    requires Undisturbed(w) && l.meta.cursor > |w.history|
    requires |w.net| > |w.history| + 1 && |w.disk| > |w.history| + 2
    ensures PullFrom(w, l).end.Finished? && PullFrom(w, l).meta.cursor == |w.history|
    ensures LastIndex(w.history, r) >= 0 ==> Brings(w, l, r)
  {
    PageOrReset(w, l);
    var (stored, taken, _) := PullTurn(w, l);
    PullBrings(stored, taken, r);
    assert forall c :: c in Met(stored, taken) ==> c in Met(w, l);
    hide PullTurn, Undisturbed, LastIndex;
  }

  /******* Uploading *******/

  lemma {:induction false} CountAtMost(h: History, r: RecordId)
    ensures Count(h, r) <= |h|
  {
    if h != [] {
      CountAtMost(h[..|h| - 1], r);
    }
  }

  /** At the end of the history the device knows every current revision. */
  lemma KnowsCurrent(h: History, m: Metadata, r: RecordId)
    requires Valid(h) && RecordsGenuine(h, m) && KnowsUpToCursor(h, m) && m.cursor == |h| && m.conflicts == []
    ensures KnownRevision(m, r) == Revision(h, r) <= |h|
  {
    KnownIsReached(h, m, r);
    RevisionCounts(h, r);
    CountAtMost(h, r);
    assert LastIndex(h, r) >= 0 ==> Knows(m, r, Revision(h, r));
  }

  /** What is queued after a pull that met no conflict has current bases. */
  lemma QueuedIsCurrent(h: History, m: Metadata, document: Document, keys: seq<RecordId>, device: nat, issued: nat)
    requires Inv(h, m, device, issued) && m.cursor == |h| && m.conflicts == []
    requires UniqueIds(document.items) && Enumerates(keys, m)
    ensures var added := NewMutations(m, document, keys, device, issued);
      AllCurrent(h, added) && forall p <- added :: p.mutation.record.revision <= |h| + 1
  {
    NewMutationsAre(m, document, keys, device, issued);
    var added := NewMutations(m, document, keys, device, issued);
    hide NewMutations;
    forall p | p in added
      ensures Current(h, p) && p.mutation.record.revision <= |h| + 1
    {
      KnowsCurrent(h, m, p.mutation.record.recordId);
      hide Inv, LastIndex, IndexOfId, NeedsUpload, NeedsDeletion, QueuedIds;
      assert UploadsFrom(m, document.items, p) || DeletesFrom(m, document, keys, p);
    }
  }

  lemma QueueAndSaveSucceeds(w: World, m: Metadata, keys: seq<RecordId>)
    requires Draining(w, m) && m.cursor == |w.history| && m.outbox == [] && Enumerates(keys, m)
    requires Undisturbed(w) && w.disk != []
    requires |w.history| + |NewMutations(m, w.sealed, keys, w.device, w.issued)| <= MAX_WIRE_BIGINT
    ensures var added := NewMutations(m, w.sealed, keys, w.device, w.issued);
      var ((stored, queued), error) := QueueAndSave(w, w.sealed, m, keys);
      && error.None? && Draining(stored, queued) && Undisturbed(stored)
      && queued == m.(outbox := added) && AllCurrent(w.history, added)
      && stored.history == w.history && stored.net == w.net && stored.disk == w.disk[1..] && stored.sealed == w.sealed
  {
    QueuedIsCurrent(w.history, m, w.sealed, keys, w.device, w.issued);
    QueueAndSaveKeeps(w, m, keys);
    var added := NewMutations(m, w.sealed, keys, w.device, w.issued);
    var drawn := w.(issued := w.issued + |added|);
    assert EnqueueLocalChanges(m, w.sealed, keys, w.device, w.issued) == m.(outbox := added);
    WriteSucceeds(drawn, m.(outbox := added), w.sealed);
    hide NewMutations, EnqueueLocalChanges, Draining, AllCurrent, Undisturbed, Enumerates, Save;
  }

  lemma UploadCompletes(first: Pulled, replayed: nat, keys: seq<RecordId>)
    requires var w := first.world;
      var queued := |NewMutations(first.meta, first.document, keys, w.device, w.issued)|;
      && Draining(w, first.meta) && w.sealed == first.document && first.meta.outbox == []
      && first.meta.cursor == |w.history| && Enumerates(keys, first.meta) && Undisturbed(w)
      && |w.net| >= 2 * queued + 1 && |w.disk| >= 2 * queued + 3 && |w.history| + queued <= MAX_WIRE_BIGINT
    ensures UploadAndPull(first, replayed, keys).end.Completed?
  {
    var w := first.world;
    QueueAndSaveSucceeds(w, first.meta, keys);
    var ((stored, queued), _) := QueueAndSave(w, first.document, first.meta, keys);
    hide NewMutations, QueueAndSave, Undisturbed, Enumerates, AllCurrent, UniqueIds;
    UndisturbedDrain(stored, queued, 0);
    DrainKeeps(stored, queued, 0);
    var d := DrainOutbox(stored, queued, 0);
    PullStarts(d.world, d.meta);
    UndisturbedPull(d.world, Local(first.document, d.meta, 0));
  }

  /******* A sync *******/

  /** No conflict is stored, the server would accept what is pending, and no record that counts as
      changed is pending or has a version that the device has not read. */
  ghost predicate WithoutConflict(w: World) {
    && w.saved.conflicts == []
    && AllCurrent(w.history, w.saved.outbox)
    && forall r :: HasLocalChange(w.sealed, Acknowledged(w.saved), r) ==>
         !PendingFor(w.saved, r) && LastIndex(w.history, r) < w.saved.cursor
  }

  /** One request for each push and, at worst, for each entry that a pull has not read and one more;
      a write for each of them, for the queue and for each pull; and a cursor for each push. */
  ghost predicate Enough(w: World, keys: seq<RecordId>) {
    var pending, queued := |w.saved.outbox|, |QueuedBySync(w, keys)|;
    var unread := |w.history| + pending - w.saved.cursor;
    && |w.net| >= pending + (unread + 1) + queued + (queued + 1)
    && |w.disk| >= pending + (unread + 2) + 1 + queued + (queued + 2)
    && |w.history| + pending + queued <= MAX_WIRE_BIGINT
  }

  /** What the first pull meets, said of the world before the sync. */
  lemma FirstPullMeetsNothing(w: World)
    requires Running(w) && w.saved.conflicts == [] && DrainOutbox(w, w.saved, 0).end.Finished?
    requires OnlyQueuedMove(w.history, DrainOutbox(w, w.saved, 0).world.history, w.saved)
    requires DrainOutbox(w, w.saved, 0).meta.cursor == w.saved.cursor
    ensures var d := DrainOutbox(w, w.saved, 0);
      MeetsNothing(d.world.history, Local(w.sealed, d.meta, 0)) <==>
      forall r :: HasLocalChange(w.sealed, Acknowledged(w.saved), r) ==>
        !PendingFor(w.saved, r) && LastIndex(w.history, r) < w.saved.cursor
  {
    DrainKeeps(w, w.saved, 0);
    DrainAcknowledges(w, w.saved, 0);
    var d := DrainOutbox(w, w.saved, 0);
    var l := Local(w.sealed, d.meta, 0);
    hide DrainOutbox, Running, Inv, HasLocalChange, LastIndex, Extends;
    forall r
      ensures WouldConflict(d.world.history, l, r) <==>
              HasLocalChange(w.sealed, Acknowledged(w.saved), r)
              && !(!PendingFor(w.saved, r) && LastIndex(w.history, r) < w.saved.cursor)
    {
      assert !PendingFor(d.meta, r);
    }
  }

  /** The first drain and the first pull: neither is given up. */
  lemma UndisturbedStart(w: World, keys: seq<RecordId>)
    requires Running(w) && Undisturbed(w) && Enough(w, keys) && w.saved.conflicts == []
    ensures var d := DrainOutbox(w, w.saved, 0);
      var first := FirstPull(w);
      && (d.end.Finished? || IsStale(d.end)) && first.end.Finished?
      && (d.end.Finished? && first.meta.conflicts == [] <==> WithoutConflict(w))
      && (d.end.Finished? && first.meta.conflicts == [] ==>
            && Draining(first.world, first.meta) && first.world.sealed == first.document
            && first.meta.outbox == [] && first.meta.cursor == |first.world.history| && Undisturbed(first.world)
            && |first.world.net| >= 2 * |QueuedBySync(w, keys)| + 1
            && |first.world.disk| >= 2 * |QueuedBySync(w, keys)| + 3
            && |first.world.history| + |QueuedBySync(w, keys)| <= MAX_WIRE_BIGINT)
  {
    UndisturbedDrain(w, w.saved, 0);
    DrainKeeps(w, w.saved, 0);
    var d := DrainOutbox(w, w.saved, 0);
    hide DrainOutbox, Undisturbed, AllCurrent, Inv, QueuedBySync;
    if d.end.Finished? {
      FirstPullMeetsNothing(w);
    }
    PullStarts(d.world, d.meta);
    var l := Local(w.sealed, d.meta, 0);
    UndisturbedPull(d.world, l);
    PullKeeps(d.world, l);
    PullKeepsOutbox(d.world, l);
    if d.end.Finished? && PullFrom(d.world, l).meta.conflicts == [] {
      PulledIsDraining(PullFrom(d.world, l));
    }
  }

  /** Undisturbed and with enough of everything, a sync is never given up. It completes exactly if
      it starts without a conflict and meets none, and otherwise asks the user. */
  lemma UndisturbedSyncCompletesExactly(w: World, keys: seq<RecordId>)
    requires Running(w) && Undisturbed(w) && Enough(w, keys) && Enumerates(keys, FirstPull(w).meta)
    ensures SyncNow(w, keys).end == if WithoutConflict(w) then Completed else AwaitingResolution
  {
    if w.saved.conflicts == [] {
      UndisturbedStart(w, keys);
      var d := DrainOutbox(w, w.saved, 0);
      var first := FirstPull(w);
      hide DrainOutbox, PullRemote, WithoutConflict, Undisturbed, Draining, NewMutations;
      if d.end.Finished? && first.meta.conflicts == [] {
        UploadCompletes(first, d.pushed, keys);
      }
    }
  }

  /******* A conflict with an own upload *******/

  /** An undisturbed pull stores the version of a blocked record that it has not read. */
  lemma {:induction false} WouldConflictIsStored(w: World, l: Local, r: RecordId)
    requires Pulling(w, l) && Undisturbed(w) && WouldConflict(w.history, l, r)
    requires |w.net| > |w.history| - l.meta.cursor && |w.disk| > |w.history| - l.meta.cursor + 1
    ensures ConflictStored(PullFrom(w, l).meta, r, Revision(w.history, r))
    decreases |w.net|
  {
    PageArrives(w, l);
    PullTurnKeeps(w, l);
    TurnSpares(w, l, r);
    var (stored, taken, turn) := PullTurn(w, l);
    if LastIndex(w.history, r) < taken.meta.cursor {
      var k := PageDeliversRevision(w.history, l.meta.cursor, taken.meta.cursor, Received(w, l), r);
      assert ConflictStored(taken.meta, r, Received(w, l)[k].record.revision);
      if turn.Again? {
        PullSparesLocalWork(stored, taken, r);
      }
    } else {
      WouldConflictIsStored(stored, taken, r);
    }
  }

  lemma QueuedIsNewest(h: History, later: History, m: Metadata, device: nat, p: Pending)
    requires OnlyQueuedMove(h, later, m) && OnePerRecord(m.outbox) && p in m.outbox
    requires Pushed(h, later, device, p.mutation)
    ensures var i := LastIndex(later, p.mutation.record.recordId);
      i >= |h| && later[i] == p.mutation
  {
    var i := LastIndex(later, p.mutation.record.recordId);
    assert InQueue(m.outbox, later[i]);
    var k :| 0 <= k < |m.outbox| && m.outbox[k].mutation == later[i];
    var j :| 0 <= j < |m.outbox| && m.outbox[j] == p;
  }

  /** A login that is edited again while its last edit is pending conflicts with the device's own
      upload of that edit, although nobody else pushed anything. */
  lemma EditedWhilePendingConflicts(w: World, keys: seq<RecordId>, p: Pending)
    requires Running(w) && Undisturbed(w) && Enough(w, keys) && Enumerates(keys, FirstPull(w).meta)
    requires w.saved.conflicts == [] && AllCurrent(w.history, w.saved.outbox)
    requires p in w.saved.outbox && Unapplied(w.history, p)
    requires HasLocalChange(w.sealed, Acknowledged(w.saved), p.mutation.record.recordId)
    ensures var o := SyncNow(w, keys);
      var r := p.mutation.record.recordId;
      && o.end.AwaitingResolution?
      && LastIndex(o.world.history, r) >= 0 && o.world.history[LastIndex(o.world.history, r)] == p.mutation
      && ConflictStored(o.world.saved, r, p.mutation.record.revision)
  {
    var r := p.mutation.record.recordId;
    UndisturbedDrain(w, w.saved, 0);
    DrainKeeps(w, w.saved, 0);
    DrainAcknowledges(w, w.saved, 0);
    DrainPushesQueue(w, w.saved, 0, p.mutation);
    var d := DrainOutbox(w, w.saved, 0);
    assert BuiltOn(w.saved, p, w.device, w.issued) && InQueue(w.saved.outbox, p.mutation);
    QueuedIsNewest(w.history, d.world.history, w.saved, w.device, p);
    PullStarts(d.world, d.meta);
    var l := Local(w.sealed, d.meta, 0);
    UndisturbedPull(d.world, l);
    PullKeeps(d.world, l);
    WouldConflictIsStored(d.world, l, r);
  }

  const EDIT := Mutation(MutationId(1, 0), 0, Envelope("a", 1, Login(Item("a", "first", 1))))

  const TWICE := Document([Item("a", "second", 2)], 2)

  /** A device whose first login is queued and was edited again; the server holds nothing. */
  function EditedTwice(net: seq<NetEvent>, disk: seq<bool>): World {
    World(1, [], Metadata(0, map[], [Pending(EDIT, Some(1))], []), TWICE, 1, net, disk)
  }

  lemma EditIsPushed(w: World)
    requires w == EditedTwice(w.net, w.disk) && Undisturbed(w) && w.net != [] && w.disk != []
    ensures var m := Metadata(0, map["a" := RecordState(1, Some(1), false)], [], []);
      && Acknowledged(w.saved) == m
      && DrainOutbox(w, w.saved, 0) == Drained(Stored(w, [EDIT], m), m, 1, Finished)
      && Undisturbed(Stored(w, [EDIT], m))
  {
    assert [] + [EDIT] == [EDIT];
    DrainTurn(w, w.saved, 0);
  }

  lemma EditComesBack(w: World)
    requires w.history == [EDIT] && w.sealed == TWICE && Undisturbed(w) && w.net != [] && w.disk != []
    requires w.saved == Metadata(0, map["a" := RecordState(1, Some(1), false)], [], [])
    ensures PullRemote(w, w.sealed, w.saved).meta ==
            Metadata(1, map["a" := RecordState(1, Some(1), false)], [], [EDIT.record])
    ensures var p := PullRemote(w, w.sealed, w.saved);
      p.document == TWICE && p.world.device == w.device && p.world.issued == w.issued
  {
    var l := Local(w.sealed, w.saved, 0);
    var change := Change(1, EDIT.record);
    LastIndexIs([EDIT], "a", 0);
    assert Feed([EDIT], 1) == [];
    assert Feed([EDIT], 0) == [change];
    assert PullPage([EDIT], 0, PULL_LIMIT) == Ok(Page([change], 1, false));
    RequestArrives(w);
    assert [change][..0] == [];
    assert ApplyChanges(l, [change]) == ApplyChange(l, EDIT.record);
    assert HasLocalChange(l.document, l.meta, "a");
    assert ApplyChange(l, EDIT.record).meta.conflicts == [] + [EDIT.record] == [EDIT.record];
    WriteSucceeds(w.(net := w.net[1..]), TakePage(l, Page([change], 1, false)).meta, w.sealed);
  }

  lemma SecondEditIsQueued(m: Metadata)
    requires m.records == map["a" := RecordState(1, Some(1), false)] && m.outbox == []
    ensures Enumerates(["a"], m) && |NewMutations(m, TWICE, ["a"], 1, 1)| == 1
  {
    assert TWICE.items[..0] == [] && ["a"][..0] == [];
    assert |QueueItems(m, TWICE.items, 1, 1)| == 1;
    assert QueueDeletions(m, TWICE, ["a"][..0], 1, 2) == [];
    assert QueueDeletions(m, TWICE, ["a"], 1, 2) == [];
    assert ["a"][0] == "a";
  }

  lemma EditedTwiceRuns(w: World)
    requires w == EditedTwice(w.net, w.disk) && Undisturbed(w)
    ensures Running(w) && AllCurrent(w.history, w.saved.outbox)
  {
  }

  lemma EditedTwiceFits(w: World)
    requires w == EditedTwice(w.net, w.disk) && Undisturbed(w) && |w.net| >= 6 && |w.disk| >= 9
    ensures HasLocalChange(w.sealed, Acknowledged(w.saved), "a")
    ensures Enough(w, ["a"]) && Enumerates(["a"], FirstPull(w).meta)
  {
    EditIsPushed(w);
    assert FindItem(TWICE.items, "a") == Some(TWICE.items[0]);
    assert HasLocalChange(w.sealed, Acknowledged(w.saved), "a");
    var d := DrainOutbox(w, w.saved, 0);
    assert Undisturbed(d.world) && d.world.net == w.net[1..] && d.world.disk == w.disk[1..];
    hide DrainOutbox, PullRemote, NewMutations, Undisturbed, Acknowledged, Enumerates, HasLocalChange;
    EditComesBack(d.world);
    SecondEditIsQueued(FirstPull(w).meta);
  }

  /** Such a device meets the hypotheses: its only conflict is with itself. */
  lemma EditedTwiceConflicts()
    ensures var w := EditedTwice(seq(6, _ => NetEvent([], true, true)), seq(9, _ => true));
      var o := SyncNow(w, ["a"]);
      && Running(w) && Undisturbed(w) && Enough(w, ["a"]) && Enumerates(["a"], FirstPull(w).meta)
      && o.end.AwaitingResolution? && LastIndex(o.world.history, "a") >= 0
      && o.world.history[LastIndex(o.world.history, "a")] == EDIT
      && ConflictStored(o.world.saved, "a", 1)
  {
    var w := EditedTwice(seq(6, _ => NetEvent([], true, true)), seq(9, _ => true));
    EditedTwiceRuns(w);
    EditedTwiceFits(w);
    var p := Pending(EDIT, Some(1));
    assert p in w.saved.outbox && Unapplied(w.history, p);
    hide SyncNow, FirstPull, Acknowledged, HasLocalChange, Running, Undisturbed, Enough, Enumerates, AllCurrent;
    hide LastIndex;
    EditedWhilePendingConflicts(w, ["a"], p);
  }
}
