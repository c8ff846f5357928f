/** What a sync answers: the document that it has sealed, the conflicts that it has stored, and how
  much it pulled and pushed.
 */
module SyncAnswers {
  import opened SyncModel
  import opened SyncHistory
  import opened SyncServer
  import opened SyncClient
  import opened SyncDocuments
  import opened SyncInvariant
  import opened SyncQueue
  import opened SyncSafety
  import opened SyncOutcomes
  import opened SyncConvergence
  import opened SyncOwnWork

  /******* The document and the conflicts *******/

  /** The document in hand is the one in the vault, and the conflicts are those stored. */
  ghost predicate Truthful(o: SyncOutcome) {
    && o.document == o.world.sealed
    && (!o.end.Aborted? ==> o.conflicts == |o.world.saved.conflicts|)
  }

  lemma PullEndsStored(w: World, m: Metadata)
    requires Draining(w, m) && NoneApplied(w.history, m)
    ensures var p := PullRemote(w, w.sealed, m);
      p.end.Finished? ==>
        && p.world.sealed == p.document && p.world.saved == p.meta
        && (p.meta.conflicts == [] ==> Draining(p.world, p.meta))
        && p.meta.outbox == m.outbox
  {
    PullStarts(w, m);
    PullKeeps(w, Local(w.sealed, m, 0));
    PullKeepsOutbox(w, Local(w.sealed, m, 0));
  }

  lemma UploadIsTruthful(first: Pulled, replayed: nat, keys: seq<RecordId>)
    requires Draining(first.world, first.meta) && first.world.sealed == first.document
    ensures Truthful(UploadAndPull(first, replayed, keys))
  {
    QueueAndSaveKeeps(first.world, first.meta, keys);
    var ((stored, queued), error) := QueueAndSave(first.world, first.document, first.meta, keys);
    hide QueueAndSave, Draining, EnqueueLocalChanges, Enumerates;
    if error.None? {
      DrainKeeps(stored, queued, 0);
      var d := DrainOutbox(stored, queued, 0);
      if d.end.Finished? {
        PullEndsStored(d.world, d.meta);
      }
    }
  }

  /** Wherever a sync ends, with a conflict included, the document that it answers is the one that
      the vault holds: editing and sealing it again loses nothing that the sync took over. */
  lemma SyncIsTruthful(w: World, keys: seq<RecordId>)
    requires Running(w)
    ensures Truthful(SyncNow(w, keys))
  {
    if w.saved.conflicts == [] {
      DrainKeeps(w, w.saved, 0);
      var d := DrainOutbox(w, w.saved, 0);
      hide DrainOutbox, PullRemote, UploadAndPull, NoneApplied, Running;
      if IsStale(d.end) || d.end.Finished? {
        PullEndsStored(d.world, d.meta);
        var p := PullRemote(d.world, w.sealed, d.meta);
        if p.end.Finished? && p.meta.conflicts == [] {
          UploadIsTruthful(p, d.pushed, keys);
        }
      }
    }
  }

  /******* How much was taken over *******/

  /** How many of the changes are about records that are not blocked. */
  function TakenOver(l: Local, changes: seq<Change>): nat {
    if changes == [] then 0
    else
      var n := |changes| - 1;
      TakenOver(l, changes[..n]) + if Blocked(l.document, l.meta, changes[n].record.recordId) then 0 else 1
  }

  lemma {:induction false} TakenOverJoined(l: Local, a: seq<Change>, b: seq<Change>)
    ensures TakenOver(l, a + b) == TakenOver(l, a) + TakenOver(l, b)
  {
    if b == [] {
      assert a + b == a;
    } else {
      assert (a + b)[..|a + b| - 1] == a + b[..|b| - 1];
      TakenOverJoined(l, a, b[..|b| - 1]);
    }
  }

  ghost predicate SameBlocked(l: Local, later: Local) {
    forall r :: Blocked(l.document, l.meta, r) <==> Blocked(later.document, later.meta, r)
  }

  lemma {:induction false} TakenOverSame(l: Local, later: Local, changes: seq<Change>)
    requires SameBlocked(l, later)
    ensures TakenOver(l, changes) == TakenOver(later, changes)
  {
    if changes != [] {
      TakenOverSame(l, later, changes[..|changes| - 1]);
    }
  }

  /** A record stays blocked or not whatever is taken over and kept aside. */
  lemma ChangesKeepBlocked(l: Local, changes: seq<Change>)
    requires forall c <- changes :: Sealable(c.record)
    ensures SameBlocked(l, ApplyChanges(l, changes))
  {
    forall r
      ensures Blocked(l.document, l.meta, r) <==>
        Blocked(ApplyChanges(l, changes).document, ApplyChanges(l, changes).meta, r)
    {
      if Blocked(l.document, l.meta, r) {
        ChangesSpare(l, changes, r);
      } else {
        ChangesKeepUnblocked(l, changes, r);
      }
    }
  }

  lemma {:induction false} ChangesCountTakenOver(l: Local, changes: seq<Change>)
    requires forall c <- changes :: Sealable(c.record)
    ensures ApplyChanges(l, changes).applied == l.applied + TakenOver(l, changes)
  {
    if changes != [] {
      var before, last := changes[..|changes| - 1], changes[|changes| - 1];
      assert changes == before + [last];
      InLonger(before, last);
      ChangesCountTakenOver(l, before);
      ChangesKeepBlocked(l, before);
    }
  }

  lemma TurnCounts(w: World, l: Local)
    requires Pulling(w, l)
    ensures var taken := PullTurn(w, l).1;
      taken.applied == l.applied + TakenOver(l, Received(w, l)) && SameBlocked(l, taken)
  {
    ReceivedAreSealable(w, l);
    ChangesCountTakenOver(l, Received(w, l));
    ChangesKeepBlocked(l, Received(w, l));
    TurnApplies(w, l);
    var taken, applied := PullTurn(w, l).1, ApplyChanges(l, Received(w, l));
    assert forall r :: Blocked(taken.document, taken.meta, r) == Blocked(applied.document, applied.meta, r);
  }

  /** A pull counts the versions that it received of records that were not blocked when it began. */
  lemma {:induction false} PullCounts(w: World, l: Local)
    requires Pulling(w, l)
    ensures PullFrom(w, l).applied == l.applied + TakenOver(l, Met(w, l))
    decreases |w.net|
  {
    TurnCounts(w, l);
    PullTurnKeeps(w, l);
    var (stored, taken, turn) := PullTurn(w, l);
    hide Pulling, PullTurn, SameBlocked, Received;
    if turn.Again? {
      PullCounts(stored, taken);
      TakenOverSame(l, taken, Met(stored, taken));
      TakenOverJoined(l, Received(w, l), Met(stored, taken));
    } else {
      assert Received(w, l) + [] == Received(w, l);
    }
  }

  lemma {:induction false} AllTakenOver(l: Local, changes: seq<Change>)
    requires NothingBlocked(l.document, l.meta)
    ensures TakenOver(l, changes) == |changes|
  {
    if changes != [] {
      AllTakenOver(l, changes[..|changes| - 1]);
      assert !HasLocalChange(l.document, l.meta, changes[|changes| - 1].record.recordId);
    }
  }

  /** Where the first pull of a sync begins. */
  function FirstLocal(w: World): Local {
    Local(w.sealed, DrainOutbox(w, w.saved, 0).meta, 0)
  }

  /** The drain of what a sync has queued. */
  function UploadDrain(first: Pulled, keys: seq<RecordId>): Drained {
    var ((stored, queued), _) := QueueAndSave(first.world, first.document, first.meta, keys);
    DrainOutbox(stored, queued, 0)
  }

  /** What the second pull of a sync receives. */
  function MetLast(first: Pulled, keys: seq<RecordId>): seq<Change> {
    var d := UploadDrain(first, keys);
    Met(d.world, Local(first.document, d.meta, 0))
  }

  lemma UploadCounts(first: Pulled, replayed: nat, keys: seq<RecordId>)
    requires Draining(first.world, first.meta) && first.world.sealed == first.document && first.meta.outbox == []
    requires UploadAndPull(first, replayed, keys).end.Completed?
    ensures var o := UploadAndPull(first, replayed, keys);
      var queued := NewMutations(first.meta, first.document, keys, first.world.device, first.world.issued);
      && o.pushed == replayed + |queued|
      && o.pulled == first.applied + |MetLast(first, keys)|
  {
    QueueAndSaveKeeps(first.world, first.meta, keys);
    var ((stored, queued), _) := QueueAndSave(first.world, first.document, first.meta, keys);
    assert queued.outbox == NewMutations(first.meta, first.document, keys, first.world.device, first.world.issued);
    UploadSettles(first.meta, first.document, keys, first.world.device, first.world.issued);
    DrainCounts(stored, queued, 0);
    DrainKeeps(stored, queued, 0);
    DrainAcknowledges(stored, queued, 0);
    var d := UploadDrain(first, keys);
    PullStarts(d.world, d.meta);
    var l := Local(first.document, d.meta, 0);
    PullCounts(d.world, l);
    AllTakenOver(l, Met(d.world, l));
  }

  lemma UploadEnds(first: Pulled, replayed: nat, keys: seq<RecordId>)
    ensures var o := UploadAndPull(first, replayed, keys);
      o.end.Completed? || (o.end.Aborted? && o.pushed == 0 && o.pulled == 0)
  {
    hide QueueAndSave, DrainOutbox, PullRemote;
  }

  lemma FirstPullCounts(w: World)
    requires Running(w) && w.saved.conflicts == []
    requires var d := DrainOutbox(w, w.saved, 0); IsStale(d.end) || d.end.Finished?
    ensures FirstPull(w).applied == TakenOver(FirstLocal(w), Met(DrainOutbox(w, w.saved, 0).world, FirstLocal(w)))
    ensures var p := FirstPull(w);
      DrainOutbox(w, w.saved, 0).end.Finished? && p.end.Finished? && p.meta.conflicts == [] ==>
        Draining(p.world, p.meta) && p.world.sealed == p.document && p.meta.outbox == []
  {
    DrainKeeps(w, w.saved, 0);
    var d := DrainOutbox(w, w.saved, 0);
    PullEndsStored(d.world, d.meta);
    PullStarts(d.world, d.meta);
    PullCounts(d.world, FirstLocal(w));
  }

  /** What the counts of an answer say. A completed sync has pushed what was pending and what it
      queued; one that stops at a conflict reports no push. Pulled are the versions taken over by
      the first pull, and all that the second one received. */
  lemma SyncCounts(w: World, keys: seq<RecordId>)
    requires Running(w)
    ensures var o := SyncNow(w, keys);
      var first := FirstPull(w);
      var taken := TakenOver(FirstLocal(w), Met(DrainOutbox(w, w.saved, 0).world, FirstLocal(w)));
      && (o.end.Completed? ==>
            && o.pushed == |w.saved.outbox| + |QueuedBySync(w, keys)|
            && o.pulled == taken + |MetLast(first, keys)|)
      && (o.end.AwaitingResolution? ==>
            o.pushed == 0 && o.pulled == if w.saved.conflicts == [] then taken else 0)
      && (o.end.Aborted? ==> o.pushed == 0 && o.pulled == 0)
  {
    hide DrainOutbox, PullRemote, UploadAndPull, TakenOver, Met, Running, MetLast, NewMutations, Draining;
    if w.saved.conflicts == [] {
      DrainCounts(w, w.saved, 0);
      var d := DrainOutbox(w, w.saved, 0);
      if IsStale(d.end) || d.end.Finished? {
        FirstPullCounts(w);
        var p := FirstPull(w);
        UploadEnds(p, d.pushed, keys);
        if d.end.Finished? && p.end.Finished? && p.meta.conflicts == [] && SyncNow(w, keys).end.Completed? {
          UploadCounts(p, d.pushed, keys);
        }
      }
    }
  }

  /******* What a pull costs *******/

  function Turns(w: World, l: Local): nat
    decreases |w.net|
  {
    var (stored, taken, turn) := PullTurn(w, l);
    1 + if turn.Again? then Turns(stored, taken) else 0
  }

  /** A pull that finishes made a request and a write for each page, and wrote the vault exactly if it
      took something over. */
  lemma {:induction false} PullWrites(w: World, l: Local)
    ensures var p := PullFrom(w, l);
      p.end.Finished? ==>
        && |w.net| == |p.world.net| + Turns(w, l)
        && |w.disk| == |p.world.disk| + Turns(w, l) + if p.applied == 0 then 0 else 1
    decreases |w.net|
  {
    TurnWrites(w, l);
    var (stored, taken, turn) := PullTurn(w, l);
    hide PullTurn;
    if turn.Again? {
      PullWrites(stored, taken);
    }
  }

  lemma TurnWrites(w: World, l: Local)
    ensures var (stored, taken, turn) := PullTurn(w, l);
      !turn.Stopped? ==> |w.net| == |stored.net| + 1 && |w.disk| == |stored.disk| + 1
  {
    hide ApplyChanges, PullPage, CommitAll;
  }

  /******* What a pull does to the document *******/

  /** `after` dates from the newest of its parts: what was there, and what of `changes` was taken over. */
  ghost predicate DatedByNewest(l: Local, changes: seq<Change>, after: Time) {
    && l.document.updatedAt <= after
    && (after == l.document.updatedAt || exists c <- changes :: TimeOf(c.record) == after)
    && (forall c <- changes :: !Blocked(l.document, l.meta, c.record.recordId) ==> TimeOf(c.record) <= after)
  }

  /** The items that none of the changes is about. */
  function Others(items: seq<Item>, ids: set<RecordId>): seq<Item> {
    if items == [] then []
    else (if items[0].id in ids then [] else [items[0]]) + Others(items[1..], ids)
  }

  function IdsOf(changes: seq<Change>): set<RecordId> {
    set c <- changes :: c.record.recordId
  }

  lemma {:induction false} OthersWithout(items: seq<Item>, id: RecordId, ids: set<RecordId>)
    requires id in ids
    ensures Others(Without(items, id), ids) == Others(items, ids)
  {
    if items != [] {
      OthersWithout(items[1..], id, ids);
      var rest := Without(items[1..], id);
      if items[0].id == id {
        assert Without(items, id) == rest;
      } else {
        assert Without(items, id) == [items[0]] + rest && Without(items, id)[1..] == rest;
      }
    }
  }

  lemma TakeOverLeavesOthers(document: Document, e: Envelope, ids: set<RecordId>)
    requires Sealable(e) && e.recordId in ids
    ensures Others(TakeOver(document, e).items, ids) == Others(document.items, ids)
  {
    TakeOverLeavesRest(document, e);
    OthersWithout(document.items, e.recordId, ids);
    OthersWithout(TakeOver(document, e).items, e.recordId, ids);
  }

  lemma {:induction false} ChangesLeaveOthers(l: Local, changes: seq<Change>, ids: set<RecordId>)
    requires forall c <- changes :: Sealable(c.record) && c.record.recordId in ids
    ensures Others(ApplyChanges(l, changes).document.items, ids) == Others(l.document.items, ids)
  {
    if changes != [] {
      var before, last := changes[..|changes| - 1], changes[|changes| - 1];
      assert changes == before + [last];
      InLonger(before, last);
      ChangesLeaveOthers(l, before, ids);
      TakeOverLeavesOthers(ApplyChanges(l, before).document, last.record, ids);
    }
  }

  /** A pull leaves the logins that it received nothing about as they were, and in their order. */
  lemma {:induction false} PullLeavesOthers(w: World, l: Local, ids: set<RecordId>)
    requires Pulling(w, l) && IdsOf(Met(w, l)) <= ids
    ensures Others(PullFrom(w, l).document.items, ids) == Others(l.document.items, ids)
    decreases |w.net|
  {
    ReceivedAreSealable(w, l);
    TurnApplies(w, l);
    PullTurnKeeps(w, l);
    var (stored, taken, turn) := PullTurn(w, l);
    var rest := if turn.Again? then Met(stored, taken) else [];
    assert Met(w, l) == Received(w, l) + rest;
    forall c | c in Received(w, l) || c in rest
      ensures c.record.recordId in ids
    {
      assert c in Met(w, l) && c.record.recordId in IdsOf(Met(w, l));
    }
    ChangesLeaveOthers(l, Received(w, l), ids);
    if turn.Again? {
      PullLeavesOthers(stored, taken, ids);
    }
  }

  lemma {:induction false} ChangesDate(l: Local, changes: seq<Change>)
    requires forall c <- changes :: Sealable(c.record)
    ensures DatedByNewest(l, changes, ApplyChanges(l, changes).document.updatedAt)
  {
    if changes != [] {
      var before, last := changes[..|changes| - 1], changes[|changes| - 1];
      assert changes == before + [last];
      InLonger(before, last);
      ChangesDate(l, before);
      ChangesKeepBlocked(l, before);
    }
  }

  /** A pulled document is dated by the newest of what it held and what was taken over. */
  lemma {:induction false} PullDates(w: World, l: Local)
    requires Pulling(w, l)
    ensures DatedByNewest(l, Met(w, l), PullFrom(w, l).document.updatedAt)
    decreases |w.net|
  {
    ReceivedAreSealable(w, l);
    TurnApplies(w, l);
    TurnCounts(w, l);
    PullTurnKeeps(w, l);
    ChangesDate(l, Received(w, l));
    var (stored, taken, turn) := PullTurn(w, l);
    if turn.Again? {
      PullDates(stored, taken);
      DatedInTwo(l, Received(w, l), taken, Met(stored, taken), PullFrom(stored, taken).document.updatedAt);
    } else {
      assert Received(w, l) + [] == Received(w, l);
    }
  }

  lemma DatedInTwo(l: Local, a: seq<Change>, mid: Local, b: seq<Change>, after: Time)
    requires DatedByNewest(l, a, mid.document.updatedAt) && DatedByNewest(mid, b, after) && SameBlocked(l, mid)
    ensures DatedByNewest(l, a + b, after)
  {
    assert forall c :: c in a + b <==> c in a || c in b;
    hide Blocked;
  }

  /** The changes about records that are not blocked. */
  function Taken(l: Local, changes: seq<Change>): seq<Change> {
    if changes == [] then []
    else
      var n := |changes| - 1;
      Taken(l, changes[..n]) + if Blocked(l.document, l.meta, changes[n].record.recordId) then [] else [changes[n]]
  }

  function LoginsIn(changes: seq<Change>): seq<Item> {
    if changes == [] then []
    else
      var n := |changes| - 1;
      LoginsIn(changes[..n]) +
      match changes[n].record.plaintext case Login(item) => [item] case Tombstone(_) => []
  }

  ghost predicate RecordsDiffer(changes: seq<Change>) {
    forall j, k :: 0 <= j < k < |changes| ==> changes[j].record.recordId != changes[k].record.recordId
  }

  lemma {:induction false} WithoutIsOthers(items: seq<Item>, id: RecordId, ids: set<RecordId>)
    ensures Without(Others(items, ids), id) == Others(items, ids + {id})
  {
    if items != [] {
      WithoutIsOthers(items[1..], id, ids);
      var rest := Others(items[1..], ids);
      if items[0].id in ids {
        assert Others(items, ids) == rest;
      } else {
        assert Others(items, ids) == [items[0]] + rest && ([items[0]] + rest)[1..] == rest;
      }
    }
  }

  lemma Regrouped<T>(a: seq<T>, b: seq<T>, c: seq<T>)
    ensures a + (b + c) == (a + b) + c
  {
  }

  lemma {:induction false} WithoutJoined(a: seq<Item>, b: seq<Item>, id: RecordId)
    ensures Without(a + b, id) == Without(a, id) + Without(b, id)
  {
    if a == [] {
      assert a + b == b;
    } else {
      WithoutJoined(a[1..], b, id);
      assert (a + b)[1..] == a[1..] + b && (a + b)[0] == a[0];
      Regrouped(if a[0].id == id then [] else [a[0]], Without(a[1..], id), Without(b, id));
    }
  }

  lemma {:induction false} WithoutNone(items: seq<Item>, id: RecordId)
    requires forall x <- items :: x.id != id
    ensures Without(items, id) == items
  {
    if items != [] {
      WithoutNone(items[1..], id);
    }
  }

  lemma {:induction false} LoginsAreOf(changes: seq<Change>)
    requires forall c <- changes :: Sealable(c.record)
    ensures forall x <- LoginsIn(changes) :: x.id in IdsOf(changes)
  {
    if changes != [] {
      var before, last := changes[..|changes| - 1], changes[|changes| - 1];
      assert changes == before + [last];
      InLonger(before, last);
      LoginsAreOf(before);
    }
  }

  lemma {:induction false} TakenAreOf(l: Local, changes: seq<Change>)
    ensures forall c <- Taken(l, changes) :: c in changes
  {
    if changes != [] {
      var before, last := changes[..|changes| - 1], changes[|changes| - 1];
      assert changes == before + [last];
      InLonger(before, last);
      TakenAreOf(l, before);
      InLonger(Taken(l, before), last);
    }
  }

  /** What a page makes of the document: the logins that it takes over come last, in the order of the
      page, behind the others in theirs. */
  lemma {:induction false} PageTakenInOrder(l: Local, changes: seq<Change>)
    requires RecordsDiffer(changes) && forall c <- changes :: Sealable(c.record)
    ensures var taken := Taken(l, changes);
      ApplyChanges(l, changes).document.items == Others(l.document.items, IdsOf(taken)) + LoginsIn(taken)
  {
    if changes == [] {
      OthersOfNone(l.document.items);
      assert IdsOf([]) == {} && l.document.items + [] == l.document.items;
    } else {
      var before, last := changes[..|changes| - 1], changes[|changes| - 1];
      assert changes == before + [last];
      InLonger(before, last);
      PageTakenInOrder(l, before);
      ChangesKeepBlocked(l, before);
      var taken := Taken(l, before);
      if Blocked(l.document, l.meta, last.record.recordId) {
        assert taken + [] == taken;
      } else {
        TakenAreOf(l, before);
        forall c | c in taken
          ensures c.record.recordId != last.record.recordId
        {
          var j :| 0 <= j < |before| && before[j] == c;
          assert changes[j] == c;
        }
        OneMoreTaken(l, ApplyChanges(l, before).document, taken, last);
      }
    }
  }

  lemma {:induction false} OthersOfNone(items: seq<Item>)
    ensures Others(items, {}) == items
  {
    if items != [] {
      OthersOfNone(items[1..]);
    }
  }

  lemma OneMoreTaken(l: Local, document: Document, taken: seq<Change>, last: Change)
    requires document.items == Others(l.document.items, IdsOf(taken)) + LoginsIn(taken)
    requires Sealable(last.record) && forall c <- taken :: Sealable(c.record)
    requires forall c <- taken :: c.record.recordId != last.record.recordId
    ensures TakeOver(document, last.record).items ==
            Others(l.document.items, IdsOf(taken + [last])) + LoginsIn(taken + [last])
  {
    var r := last.record.recordId;
    var others, logins := Others(l.document.items, IdsOf(taken)), LoginsIn(taken);
    LoginsAreOf(taken);
    WithoutJoined(others, logins, r);
    WithoutNone(logins, r);
    WithoutIsOthers(l.document.items, r, IdsOf(taken));
    OneMoreId(taken, last);
    var rest := Others(l.document.items, IdsOf(taken) + {r});
    var tail := if last.record.plaintext.Login? then [last.record.plaintext.item] else [];
    assert rest + logins == Without(document.items, r);
    assert TakeOver(document, last.record).items == (rest + logins) + tail;
    hide Without, Others, LoginsIn, IdsOf, TakeOver;
    Regrouped(rest, logins, tail);
  }

  lemma OneMoreId(taken: seq<Change>, last: Change)
    ensures IdsOf(taken + [last]) == IdsOf(taken) + {last.record.recordId}
    ensures LoginsIn(taken + [last]) ==
            LoginsIn(taken) + if last.record.plaintext.Login? then [last.record.plaintext.item] else []
  {
    assert (taken + [last])[..|taken|] == taken;
    InLonger(taken, last);
  }
}
