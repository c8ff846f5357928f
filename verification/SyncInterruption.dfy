/** What a pull leaves behind when it is cut short between saving a page and sealing the document.

  Pages are saved one by one, the document only after the last of them. If the seal does not
  happen, the saved metadata describes versions that the sealed document does not hold, and the
  next sync takes the difference for the user's edits: it deletes exactly the logins that the
  interrupted pull saved and the device does not hold.
 */
module SyncInterruption {
  import opened SyncModel
  import opened SyncHistory
  import opened SyncServer
  import opened SyncClient
  import opened SyncDocuments
  import opened SyncInvariant
  import opened SyncSafety
  import opened SyncOutcomes
  import opened SyncConvergence
  import opened SyncPaging
  import opened SyncQueue
  import opened SyncOwnWork

  /** The version stamp under which the metadata holds a record; none if it holds no login. */
  function RecordedStamp(m: Metadata, r: RecordId): Option<Time> {
    if r in m.records && !m.records[r].tombstoned then m.records[r].stamp else None
  }

  function DocumentStamp(document: Document, r: RecordId): Option<Time> {
    match FindItem(document.items, r)
    case Some(item) => Some(item.updatedAt)
    case None => None
  }

  /** A record counts as locally changed exactly when the two stamps differ. */
  lemma LocalChangeIsStampMismatch(h: History, document: Document, m: Metadata, r: RecordId)
    requires RecordsGenuine(h, m)
    ensures HasLocalChange(document, m, r) <==> DocumentStamp(document, r) != RecordedStamp(m, r)
  {
    if r in m.records {
      assert RecordedFrom(h, r, m.records[r]);
    }
  }

  lemma {:induction false} UnsealedUntilFinished(w: World, l: Local)
    ensures PullFrom(w, l).end.Failed? ==> PullFrom(w, l).world.sealed == w.sealed
    decreases |w.net|
  {
    var (stored, taken, turn) := PullTurn(w, l);
    if turn.Again? {
      UnsealedUntilFinished(stored, taken);
    }
  }

  /** What the server delivered in pages whose save succeeded. */
  function SavedChanges(w: World, l: Local): seq<Change>
    decreases |w.net|
  {
    var (stored, taken, turn) := PullTurn(w, l);
    match turn
    case Again => Received(w, l) + SavedChanges(stored, taken)
    case LastPage => Received(w, l)
    case Stopped(_) => []
  }

  /** The newest version of a record among them. */
  function NewestSaved(w: World, l: Local, r: RecordId): Option<Envelope> {
    Newest(RecordsOf(SavedChanges(w, l)), r)
  }

  lemma RecordsOfJoined(a: seq<Change>, b: seq<Change>)
    ensures RecordsOf(a + b) == RecordsOf(a) + RecordsOf(b)
  {
  }

  /** `records` holds for `r` what the newest of `changes` says, and otherwise what it held before. */
  ghost predicate RecordsNewest(before: map<RecordId, RecordState>, changes: seq<Change>,
                                after: map<RecordId, RecordState>, r: RecordId) {
    match Newest(RecordsOf(changes), r)
    case Some(e) => r in after && after[r] == StateOf(e)
    case None => (r in after <==> r in before) && (r in after ==> after[r] == before[r])
  }

  lemma RecordsNewestInTwo(
    before: map<RecordId, RecordState>, a: seq<Change>, mid: map<RecordId, RecordState>, b: seq<Change>,
    after: map<RecordId, RecordState>, r: RecordId)
    requires RecordsNewest(before, a, mid, r) && RecordsNewest(mid, b, after, r)
    ensures RecordsNewest(before, a + b, after, r)
  {
    RecordsOfJoined(a, b);
    NewestOfJoined(RecordsOf(a), RecordsOf(b), r);
  }

  /** With nothing blocked every change is taken over and recorded. */
  lemma {:induction false} ChangesAreRecorded(l: Local, changes: seq<Change>, r: RecordId)
    requires NothingBlocked(l.document, l.meta) && forall c <- changes :: Sealable(c.record)
    ensures RecordsNewest(l.meta.records, changes, ApplyChanges(l, changes).meta.records, r)
  {
    if changes != [] {
      var before, last := changes[..|changes| - 1], changes[|changes| - 1];
      assert changes == before + [last];
      InLonger(before, last);
      ChangesAreRecorded(l, before, r);
      UnblockedChanges(l, before);
      var mid := ApplyChanges(l, before);
      assert !HasLocalChange(mid.document, mid.meta, last.record.recordId);
      assert RecordsOf([last]) == [last.record];
      assert RecordsNewest(mid.meta.records, [last], ApplyChange(mid, last.record).meta.records, r);
      RecordsNewestInTwo(l.meta.records, before, mid.meta.records,
                         [last], ApplyChange(mid, last.record).meta.records, r);
    } else {
      assert RecordsOf(changes) == [];
    }
  }

  /** One turn: a page that is saved is recorded; one that is not leaves the saved metadata alone. */
  lemma TurnIsRecorded(w: World, l: Local, r: RecordId)
    requires Pulling(w, l) && w.saved == l.meta && NothingBlocked(l.document, l.meta)
    ensures var (stored, taken, turn) := PullTurn(w, l);
      && RecordsNewest(l.meta.records, Received(w, l), taken.meta.records, r)
      && (turn.Stopped? ==> stored.saved == w.saved)
      && (!turn.Stopped? ==> stored.saved == taken.meta)
      && l.meta.outbox == [] && taken.meta.outbox == []
  {
    PullTurnKeeps(w, l);
    UnblockedTurn(w, l);
    ReceivedAreSealable(w, l);
    ChangesAreRecorded(l, Received(w, l), r);
    TurnApplies(w, l);
  }

  /** What a pull that starts with nothing blocked leaves saved, wherever it stops. */
  lemma {:induction false} SavedIsNewest(w: World, l: Local, r: RecordId)
    requires Pulling(w, l) && w.saved == l.meta && NothingBlocked(l.document, l.meta)
    ensures RecordsNewest(l.meta.records, SavedChanges(w, l), PullFrom(w, l).world.saved.records, r)
    ensures PullFrom(w, l).world.saved.outbox == []
    decreases |w.net|
  {
    PullTurnKeeps(w, l);
    UnblockedTurn(w, l);
    TurnIsRecorded(w, l, r);
    var (stored, taken, turn) := PullTurn(w, l);
    hide RecordsNewest, PullTurn, NothingBlocked, Received;
    match turn
    case Again =>
      SavedIsNewest(stored, taken, r);
      RecordsNewestInTwo(l.meta.records, Received(w, l), taken.meta.records, SavedChanges(stored, taken),
                         PullFrom(stored, taken).world.saved.records, r);
    case LastPage =>
    case Stopped(_) =>
      NothingIsRecorded(l.meta.records, r);
  }

  lemma NothingIsRecorded(records: map<RecordId, RecordState>, r: RecordId)
    ensures RecordsNewest(records, [], records, r)
  {
    assert RecordsOf([]) == [];
  }

  /** A pull that starts with nothing locally changed leaves a record counted as changed exactly
      when it was cut short after a page was saved with a version of that record whose stamp the
      document does not hold. */
  lemma InterruptedPullLeavesChanges(w: World, m: Metadata, r: RecordId)
    requires Draining(w, m) && NothingBlocked(w.sealed, m)
    ensures var p := PullRemote(w, w.sealed, m);
      var newest := NewestSaved(w, Local(w.sealed, m, 0), r);
      HasLocalChange(p.world.sealed, p.world.saved, r) <==>
      p.end.Failed? && newest.Some? && StateOf(newest.value).stamp != DocumentStamp(w.sealed, r)
  {
    PullStarts(w, m);
    var l := Local(w.sealed, m, 0);
    PullKeeps(w, l);
    UnblockedPull(w, l);
    UnsealedUntilFinished(w, l);
    SavedIsNewest(w, l, r);
    var p := PullFrom(w, l);
    LocalChangeIsStampMismatch(w.history, w.sealed, m, r);
    LocalChangeIsStampMismatch(p.world.history, p.world.sealed, p.world.saved, r);
    assert !HasLocalChange(w.sealed, m, r);
  }

  /** The harm, exactly: after an interrupted pull that started clean, the next completed sync
      deletes a record exactly if a saved page delivered it last as a login, and the document does
      not hold one. */
  lemma NextSyncDeletesExactly(
    w: World, m: Metadata, net: seq<NetEvent>, disk: seq<bool>, keys: seq<RecordId>, r: RecordId)
    requires Draining(w, m) && NothingBlocked(w.sealed, m)
    requires PullRemote(w, w.sealed, m).end.Failed? && HonestNet(net, w.device)
    requires SyncNow(PullRemote(w, w.sealed, m).world.(net := net, disk := disk), keys).end.Completed?
    ensures var next := PullRemote(w, w.sealed, m).world.(net := net, disk := disk);
      var newest := NewestSaved(w, Local(w.sealed, m, 0), r);
      PushedDeletion(next.history, SyncNow(next, keys).world.history, w.device, r) <==>
      newest.Some? && newest.value.plaintext.Login? && FindItem(w.sealed.items, r).None?
  {
    PullStarts(w, m);
    var l := Local(w.sealed, m, 0);
    PullKeeps(w, l);
    UnsealedUntilFinished(w, l);
    SavedIsNewest(w, l, r);
    var next := PullFrom(w, l).world.(net := net, disk := disk);
    CompletedSyncDeletes(next, keys, r);
    assert !HasLocalChange(w.sealed, m, r);
    ChangeIsWork(w.sealed, m, r);
  }

  /** The other half: it uploads a login of the document over the version that a saved page
      delivered last, exactly if the two have different stamps. */
  lemma NextSyncOverwritesExactly(
    w: World, m: Metadata, net: seq<NetEvent>, disk: seq<bool>, keys: seq<RecordId>, x: Item)
    requires Draining(w, m) && NothingBlocked(w.sealed, m)
    requires PullRemote(w, w.sealed, m).end.Failed? && HonestNet(net, w.device)
    requires SyncNow(PullRemote(w, w.sealed, m).world.(net := net, disk := disk), keys).end.Completed?
    ensures var next := PullRemote(w, w.sealed, m).world.(net := net, disk := disk);
      var newest := NewestSaved(w, Local(w.sealed, m, 0), x.id);
      PushedLogin(next.history, SyncNow(next, keys).world.history, w.device, x) <==>
      FindItem(w.sealed.items, x.id) == Some(x) && newest.Some? && StateOf(newest.value).stamp != Some(x.updatedAt)
  {
    PullStarts(w, m);
    var l := Local(w.sealed, m, 0);
    PullKeeps(w, l);
    UnsealedUntilFinished(w, l);
    SavedIsNewest(w, l, x.id);
    InterruptedPullLeavesChanges(w, m, x.id);
    var next := PullFrom(w, l).world.(net := net, disk := disk);
    hide NewestSaved, PullFrom, DrainOutbox, Inv, NothingBlocked, HasLocalChange, RecordsNewest;
    CompletedSyncUploads(next, keys, x);
    ChangeIsWork(next.sealed, next.saved, x.id);
  }

  /******* A remote login deleted by an interrupted pull *******/

  const LOGIN := Item("a", "secret", 5)

  const CREATED := Mutation(MutationId(2, 0), 0, Envelope("a", 1, Login(LOGIN)))

  const CLEAN := NetEvent([], true, true)

  /** A device without logins; the server holds one that another device created. */
  function Start(net: seq<NetEvent>, disk: seq<bool>): World {
    World(1, [CREATED], Metadata(0, map[], [], []), Document([], 0), 0, net, disk)
  }

  /** The same device after the page was saved and the document was not. */
  function Interrupted(net: seq<NetEvent>, disk: seq<bool>): World {
    World(1, [CREATED], Metadata(1, map["a" := RecordState(1, Some(5), false)], [], []), Document([], 0), 0, net, disk)
  }

  lemma FirstSyncIsInterrupted()
    ensures var w := Start([CLEAN], [true, false]);
      && Draining(w, w.saved) && NothingBlocked(w.sealed, w.saved)
      && SyncNow(w, []).world == Interrupted([], [])
      && SyncNow(w, []).end == Aborted(NotSealed)
  {
    var w := Start([CLEAN], [true, false]);
    StartIsSound(w);
    var l := Local(w.sealed, w.saved, 0);
    hide Inv, HonestNet, UniqueIds;
    assert DrainOutbox(w, w.saved, 0) == Drained(w, w.saved, 0, Finished);
    assert Elsewhere(w) == w.(net := []);
    OneRowFeed();
    var change := Change(1, CREATED.record);
    assert [change][..0] == [];
    assert ApplyChanges(l, [change]) == ApplyChange(l, CREATED.record);
    assert PullTurn(w, l).0 == Interrupted([], [false]);
    assert PullFrom(w, l).world == Interrupted([], []);
  }

  lemma StartIsSound(w: World)
    requires w == Start([CLEAN], [true, false])
    ensures Draining(w, w.saved) && NothingBlocked(w.sealed, w.saved)
  {
    OneRowFeed();
  }

  lemma OneRowFeed()
    ensures LastIndex([CREATED], "a") == 0
    ensures PullPage([CREATED], 0, PULL_LIMIT) == Ok(Page([Change(1, CREATED.record)], 1, false))
    ensures PullPage([CREATED], 1, PULL_LIMIT) == Ok(Page([], 1, false))
  {
    LastIndexIs([CREATED], "a", 0);
    assert Feed([CREATED], 1) == [];
    assert Feed([CREATED], 0) == [Change(1, CREATED.record)];
  }

  const DELETION := Mutation(MutationId(1, 0), 1, Envelope("a", 2, Tombstone(0)))

  /** The next sync meets no error, queues a tombstone for the login that it never showed, and
      the login is gone from the server. */
  lemma NextSyncDeletesRemoteLogin()
    ensures var o := SyncNow(Interrupted([CLEAN, CLEAN, CLEAN], [true, true, true, true, true]), ["a"]);
      && o.end == Completed
      && LiveLogin([CREATED], "a") == Some(LOGIN)
      && o.world.history == [CREATED, DELETION]
      && LiveLogin(o.world.history, "a") == None
  {
    var w := Interrupted([CLEAN, CLEAN, CLEAN], [true, true, true, true, true]);
    var m := w.saved;
    assert DrainOutbox(w, m, 0) == Drained(w, m, 0, Finished);
    var first := FirstPullBringsNothing(w);
    DeletionIsQueued();
    var drained := DeletionIsPushed();
    SecondPullEchoes(drained);
    LastIndexIs([CREATED], "a", 0);
    LastIndexIs([CREATED, DELETION], "a", 1);
  }

  lemma FirstPullBringsNothing(w: World) returns (first: Pulled)
    requires w == Interrupted([CLEAN, CLEAN, CLEAN], [true, true, true, true, true])
    ensures first == PullRemote(w, w.sealed, w.saved)
    ensures first == Pulled(Interrupted([CLEAN, CLEAN], [true, true, true, true]), w.sealed, w.saved, 0, Finished)
  {
    first := PullRemote(w, w.sealed, w.saved);
    var l := Local(w.sealed, w.saved, 0);
    OneRowFeed();
    assert Elsewhere(w) == w.(net := [CLEAN, CLEAN]);
    assert ApplyChanges(l, []) == l;
    assert PullTurn(w, l) == (Interrupted([CLEAN, CLEAN], [true, true, true, true]), l, LastPage);
  }

  const QUEUED := Metadata(
    1, map["a" := RecordState(1, Some(5), false)], [Pending(DELETION, None)], [])

  lemma DeletionIsQueued()
    ensures var w := Interrupted([CLEAN, CLEAN], [true, true, true, true]);
      QueueAndSave(w, w.sealed, w.saved, ["a"]) ==
      ((World(1, [CREATED], QUEUED, Document([], 0), 1, [CLEAN, CLEAN], [true, true, true]), QUEUED), None)
  {
    var w := Interrupted([CLEAN, CLEAN], [true, true, true, true]);
    var m := w.saved;
    var keys := ["a"];
    assert keys[..0] == [];
    assert QueueDeletions(m, w.sealed, keys[..0], 1, 0) == [];
    assert NeedsDeletion(m, w.sealed, "a");
    var p := Pending(DELETION, None);
    assert QueueDeletions(m, w.sealed, keys, 1, 0) == [] + [p] == [p];
    assert QueueItems(m, [], 1, 0) == [];
    assert NewMutations(m, w.sealed, keys, 1, 0) == [] + [p] == [p];
    assert keys[0] == "a";
  }

  const DELETED := Metadata(1, map["a" := RecordState(2, None, true)], [], [])

  lemma DeletionIsPushed() returns (after: World)
    ensures after == World(1, [CREATED, DELETION], DELETED, Document([], 0), 1, [CLEAN], [true, true])
    ensures var w := World(1, [CREATED], QUEUED, Document([], 0), 1, [CLEAN, CLEAN], [true, true, true]);
      DrainOutbox(w, QUEUED, 0) == Drained(after, DELETED, 1, Finished)
  {
    var w := World(1, [CREATED], QUEUED, Document([], 0), 1, [CLEAN, CLEAN], [true, true, true]);
    after := World(1, [CREATED, DELETION], DELETED, Document([], 0), 1, [CLEAN], [true, true]);
    assert Elsewhere(w) == w.(net := [CLEAN]);
    LastIndexIs([CREATED], "a", 0);
    SinglePush([CREATED], DELETION);
    assert PushOne([CREATED], DELETION).Ok?;
    assert [CREATED] + [DELETION] == [CREATED, DELETION];
    assert HttpPush(w, DELETION) == (w.(history := [CREATED, DELETION], net := [CLEAN]), Accepted);
    assert Acknowledge(QUEUED) == DELETED;
    assert Save(w.(history := [CREATED, DELETION], net := [CLEAN]), DELETED) == (after, true);
    assert DrainOutbox(after, DELETED, 1) == Drained(after, DELETED, 1, Finished);
  }

  lemma SecondPullEchoes(w: World)
    requires w == World(1, [CREATED, DELETION], DELETED, Document([], 0), 1, [CLEAN], [true, true])
    ensures PullRemote(w, w.sealed, DELETED).end == Finished
    ensures PullRemote(w, w.sealed, DELETED).world.history == [CREATED, DELETION]
  {
    var h := [CREATED, DELETION];
    var l := Local(w.sealed, DELETED, 0);
    var change := Change(2, DELETION.record);
    assert Elsewhere(w) == w.(net := []);
    LastIndexIs(h, "a", 1);
    assert Feed(h, 2) == [];
    assert Feed(h, 1) == [change];
    assert PullPage(h, 1, PULL_LIMIT) == Ok(Page([change], 2, false));
    assert [change][..0] == [];
    assert ApplyChanges(l, [change]) == ApplyChange(l, DELETION.record);
    assert ApplyChange(l, DELETION.record).applied == 1;
    assert PullTurn(w, l).2 == LastPage;
    assert PullTurn(w, l).0.disk == [true];
  }
}
