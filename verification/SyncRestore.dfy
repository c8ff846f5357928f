/** Where a device's sync state comes from: enabling sync on a local vault, or restoring the
  vault of the account on a new device.
 */
module SyncRestore {
  import opened SyncModel
  import opened SyncHistory
  import opened SyncServer
  import opened SyncClient
  import opened SyncDocuments
  import opened SyncInvariant
  import opened SyncQueue
  import opened SyncSafety
  import opened SyncOutcomes
  import opened SyncConvergence
  import opened SyncPaging

  /******* Restoring *******/

  /** Setting a key of an insertion-ordered map: an existing key keeps its place. */
  function Upsert(items: seq<Item>, item: Item): seq<Item> {
    if items == [] then [item]
    else if items[0].id == item.id then [item] + items[1..]
    else [items[0]] + Upsert(items[1..], item)
  }

  /** Later envelopes win and tombstones remove. */
  function RestoredItems(records: seq<Envelope>): seq<Item> {
    if records == [] then []
    else
      var before := RestoredItems(records[..|records| - 1]);
      var e := records[|records| - 1];
      match e.plaintext
      case Login(item) => Upsert(before, item)
      case Tombstone(_) => Without(before, e.recordId)
  }

  function LatestTime(records: seq<Envelope>, createdAt: Time): Time {
    if records == [] then createdAt
    else
      var e := records[|records| - 1];
      Max(TimeOf(e), LatestTime(records[..|records| - 1], createdAt))
  }

  function RestoredDocument(records: seq<Envelope>, createdAt: Time): Document {
    Document(RestoredItems(records), LatestTime(records, createdAt))
  }

  function RestoredState(e: Envelope, document: Document): RecordState {
    match FindItem(document.items, e.recordId)
    case Some(item) => RecordState(e.revision, Some(item.updatedAt), false)
    case None => RecordState(e.revision, None, true)
  }

  function RestoredRecords(records: seq<Envelope>, document: Document): map<RecordId, RecordState> {
    if records == [] then map[]
    else
      var e := records[|records| - 1];
      RestoredRecords(records[..|records| - 1], document)[e.recordId := RestoredState(e, document)]
  }

  function MetadataForRestoredVault(records: seq<Envelope>, cursor: nat, document: Document): Metadata {
    Metadata(cursor, RestoredRecords(records, document), [], [])
  }

  lemma {:induction false} FindUpsert(items: seq<Item>, item: Item, id: RecordId)
    ensures FindItem(Upsert(items, item), id) == if id == item.id then Some(item) else FindItem(items, id)
  {
    if items != [] && items[0].id != item.id {
      FindUpsert(items[1..], item, id);
      assert Upsert(items, item)[1..] == Upsert(items[1..], item);
    } else if items != [] {
      assert Upsert(items, item)[1..] == items[1..];
    }
  }

  lemma {:induction false} UpsertUnique(items: seq<Item>, item: Item)
    requires UniqueIds(items)
    ensures UniqueIds(Upsert(items, item))
    ensures forall x <- Upsert(items, item) :: x == item || x in items
  {
    if items != [] {
      assert items == [items[0]] + items[1..];
      if items[0].id != item.id {
        UpsertUnique(items[1..], item);
        var rest := Upsert(items[1..], item);
        forall j | 0 <= j < |rest|
          ensures rest[j].id != items[0].id
        {
          assert rest[j] in rest;
        }
        assert Upsert(items, item) == [items[0]] + rest;
      } else {
        assert forall j :: 0 < j < |items| ==> Upsert(items, item)[j] == items[j];
      }
    }
  }

  /** An existing login keeps its place, a new one comes last. */
  lemma {:induction false} UpsertKeepsPlaces(items: seq<Item>, item: Item)
    requires UniqueIds(items)
    ensures var after := Upsert(items, item);
      && |after| == |items| + (if FindItem(items, item.id).None? then 1 else 0)
      && (forall k :: 0 <= k < |items| ==> after[k] == if items[k].id == item.id then item else items[k])
      && (FindItem(items, item.id).None? ==> after[|items|] == item)
  {
    if items != [] {
      UpsertKeepsPlaces(items[1..], item);
      assert forall k :: 0 <= k < |items| - 1 ==> items[1..][k] == items[k + 1];
    }
  }

  /** The fold finds, under each id, what the newest envelope of that record says. */
  lemma {:induction false} RestoredItemsFind(records: seq<Envelope>, r: RecordId)
    requires forall e <- records :: Sealable(e)
    ensures UniqueIds(RestoredItems(records))
    ensures FindItem(RestoredItems(records), r) ==
            match Newest(records, r)
            case Some(e) => (match e.plaintext case Login(item) => Some(item) case Tombstone(_) => None)
            case None => None
  {
    if records != [] {
      var before := records[..|records| - 1];
      var e := records[|records| - 1];
      assert records == before + [e];
      InLonger(before, e);
      assert Sealable(e);
      RestoredItemsFind(before, r);
      match e.plaintext
      case Login(item) =>
        FindUpsert(RestoredItems(before), item, r);
        UpsertUnique(RestoredItems(before), item);
      case Tombstone(_) =>
        FindWithout(RestoredItems(before), e.recordId, r);
        WithoutKeeps(RestoredItems(before), e.recordId);
    }
  }

  lemma {:induction false} RestoredRecordsAre(records: seq<Envelope>, document: Document, r: RecordId)
    ensures var st := RestoredRecords(records, document);
      && (r in st <==> Newest(records, r).Some?)
      && (r in st ==> st[r] == RestoredState(Newest(records, r).value, document))
  {
    if records != [] {
      RestoredRecordsAre(records[..|records| - 1], document, r);
    }
  }

  /** The restored document is dated by the newest record, or by the creation of the vault. */
  lemma {:induction false} RestoredTimeIsLatest(records: seq<Envelope>, createdAt: Time)
    ensures var t := RestoredDocument(records, createdAt).updatedAt;
      && createdAt <= t && (forall e <- records :: TimeOf(e) <= t)
      && (t == createdAt || exists e <- records :: TimeOf(e) == t)
  {
    if records != [] {
      var before, last := records[..|records| - 1], records[|records| - 1];
      RestoredTimeIsLatest(before, createdAt);
      InLonger(before, last);
      assert records == before + [last];
      assert last in records;
    }
  }

  /** The device has not pushed to this vault before. */
  ghost predicate NewDevice(h: History, device: nat) {
    forall i: nat :: i < |h| ==> h[i].id.device != device
  }

  lemma FetchedAreSealable(cursor: nat, served: seq<History>, limit: nat)
    requires limit > 0 && served != [] && Growing(served) && cursor <= |served[0]|
    requires forall h <- served :: AllSealable(h)
    ensures forall e <- FetchPages(cursor, served, limit).records :: Sealable(e)
    decreases |served|
  {
    var h := served[0];
    assert Valid(h) && h in served && AllSealable(h);
    PageIsRows(h, cursor, limit);
    var page := PullPage(h, cursor, limit).value;
    forall e | e in RecordsOf(page.changes)
      ensures Sealable(e)
    {
      var k :| 0 <= k < |page.changes| && page.changes[k].record == e;
      assert CurrentRow(h, cursor, page.nextCursor, page.changes[k]);
      assert Sealable(h[page.changes[k].cursor - 1].record);
    }
    if page.hasMore && |served| > 1 {
      assert Growing(served[1..]) && Extends(h, served[1]);
      FetchedAreSealable(page.nextCursor, served[1..], limit);
    }
  }

  /** Restoring on a new device, with pushes between the pages: the document holds exactly the
      server's live logins at the last page, the metadata satisfies the sync invariant, and
      nothing counts as locally changed. */
  lemma RestoreIsLiveVault(served: seq<History>, limit: nat, createdAt: Time, device: nat)
    requires limit > 0 && served != [] && Growing(served)
    requires forall h <- served :: AllSealable(h)
    ensures var f := FetchPages(0, served, limit);
      var document := RestoredDocument(f.records, createdAt);
      var m := MetadataForRestoredVault(f.records, f.cursor, document);
      f.IsComplete() && NewDevice(f.asOf, device) ==>
        && UniqueIds(document.items)
        && (forall r :: FindItem(document.items, r) == LiveLogin(f.asOf, r))
        && Inv(f.asOf, m, device, 0)
        && NothingBlocked(document, m)
        && m.cursor == |f.asOf| && m.conflicts == []
  {
    var f := FetchPages(0, served, limit);
    if f.IsComplete() && NewDevice(f.asOf, device) {
      var h := f.asOf;
      var document := RestoredDocument(f.records, createdAt);
      var m := MetadataForRestoredVault(f.records, f.cursor, document);
      PagedPullIsComplete(0, served, limit);
      FetchedAreSealable(0, served, limit);
      RestoredItemsFind(f.records, "");
      forall r
        ensures FindItem(document.items, r) == LiveLogin(h, r)
        ensures r in m.records <==> LastIndex(h, r) >= 0
        ensures r in m.records ==> m.records[r] == StateOf(h[LastIndex(h, r)].record)
      {
        RestoredItemsFind(f.records, r);
        RestoredRecordsAre(f.records, document, r);
      }
      RestoredMetadataFits(h, document, m, device);
    }
  }

  lemma RestoredMetadataFits(h: History, document: Document, m: Metadata, device: nat)
    requires Valid(h) && AllSealable(h) && NewDevice(h, device)
    requires m == Metadata(|h|, m.records, [], [])
    requires forall r :: FindItem(document.items, r) == LiveLogin(h, r)
    requires forall r :: r in m.records <==> LastIndex(h, r) >= 0
    requires forall r :: r in m.records ==> m.records[r] == StateOf(h[LastIndex(h, r)].record)
    ensures Inv(h, m, device, 0)
    ensures NothingBlocked(document, m)
  {
    hide LastIndex, FindItem, Valid, AllSealable;
    forall r
      ensures r in m.records ==> RecordedFrom(h, r, m.records[r])
      ensures 0 <= LastIndex(h, r) < m.cursor ==> Knows(m, r, Revision(h, r))
      ensures !HasLocalChange(document, m, r)
    {
      assert FindItem(document.items, r) == LiveLogin(h, r);
      RestoredRecordFits(h, document, m, r);
    }
  }

  lemma RestoredRecordFits(h: History, document: Document, m: Metadata, r: RecordId)
    requires FindItem(document.items, r) == LiveLogin(h, r)
    requires r in m.records <==> LastIndex(h, r) >= 0
    requires r in m.records ==> m.records[r] == StateOf(h[LastIndex(h, r)].record)
    ensures r in m.records ==> RecordedFrom(h, r, m.records[r])
    ensures LastIndex(h, r) >= 0 ==> Knows(m, r, Revision(h, r))
    ensures !HasLocalChange(document, m, r)
  {
    if r in m.records {
      CurrentWasApplied(h, r);
    }
  }

  /******* Enabling *******/

  /** The conversion of a version 1 vault: one login record per item, in order, at revision 1.
      A document that repeats an id is refused. */
  function ConvertVault(items: seq<Item>): Option<seq<Envelope>> {
    if exists i, j :: 0 <= i < j < |items| && items[i].id == items[j].id then None
    else Some(seq(|items|, k requires 0 <= k < |items| => Envelope(items[k].id, 1, Login(items[k]))))
  }

  function StampIn(items: seq<Item>, r: RecordId): Option<Time> {
    match FindItem(items, r)
    case Some(item) => Some(item.updatedAt)
    case None => None
  }

  /** Queued for upload to the new, empty vault. */
  function EnabledMetadata(items: seq<Item>, records: seq<Envelope>, device: nat): Metadata {
    Metadata(0, map[], seq(|records|, k requires 0 <= k < |records| =>
      Pending(Mutation(MutationId(device, k), 0, records[k]), StampIn(items, records[k].recordId))), [])
  }

  /** Enabling sync starts a device that satisfies the invariant on an empty vault. */
  lemma EnablingStarts(document: Document, device: nat)
    ensures ConvertVault(document.items).Some? <==> UniqueIds(document.items)
    ensures UniqueIds(document.items) ==>
      var records := ConvertVault(document.items).value;
      Inv([], EnabledMetadata(document.items, records, device), device, |records|)
  {
    if UniqueIds(document.items) {
      var items := document.items;
      var records := ConvertVault(items).value;
      var m := EnabledMetadata(items, records, device);
      forall p | p in m.outbox
        ensures BuiltOn(m, p, device, |records|)
      {
        var k :| 0 <= k < |items| && m.outbox[k] == p;
        FindUnique(items, items[k]);
      }
    }
  }

  /******* Converting, uploading, restoring *******/

  function MutationsOf(outbox: seq<Pending>): (ms: seq<Mutation>)
    ensures |ms| == |outbox| && forall k :: 0 <= k < |ms| ==> ms[k] == outbox[k].mutation
  {
    seq(|outbox|, k requires 0 <= k < |outbox| => outbox[k].mutation)
  }

  ghost predicate Quiet(net: seq<NetEvent>) {
    forall e <- net :: e.others == []
  }

  lemma QuietHeadPushed(w: World, m: Metadata)
    requires Draining(w, m) && NoneApplied(w.history, m) && Quiet(w.net) && m.outbox != []
    ensures var (asked, answer) := HttpPush(w, m.outbox[0].mutation);
      && Quiet(asked.net)
      && (answer.Accepted? ==> asked.history == w.history + [m.outbox[0].mutation])
  {
    assert m.outbox[0] in m.outbox;
    SinglePush(w.history, m.outbox[0].mutation);
    if w.net != [] {
      assert w.net[0] in w.net && Elsewhere(w).history == w.history;
      assert forall e :: e in w.net[1..] ==> e in w.net;
    }
  }

  lemma HeadThenRest(h: History, outbox: seq<Pending>)
    requires outbox != []
    ensures h + MutationsOf(outbox) == (h + [outbox[0].mutation]) + MutationsOf(outbox[1..])
  {
  }

  /** One turn of a drain: it goes on from what was saved, or has not finished. */
  lemma DrainTurn(w: World, m: Metadata, pushed: nat)
    ensures m.outbox == [] ==> DrainOutbox(w, m, pushed) == Drained(w, m, pushed, Finished)
    ensures m.outbox != [] ==>
      var (asked, answer) := HttpPush(w, m.outbox[0].mutation);
      var (stored, ok) := Save(asked, Acknowledge(m));
      if answer.Accepted? && ok then DrainOutbox(w, m, pushed) == DrainOutbox(stored, Acknowledge(m), pushed + 1)
      else DrainOutbox(w, m, pushed).end.Failed?
  {
  }

  lemma QuietTurn(w: World, m: Metadata)
    requires Draining(w, m) && NoneApplied(w.history, m) && Quiet(w.net) && m.outbox != []
    ensures var (asked, answer) := HttpPush(w, m.outbox[0].mutation);
      var (stored, ok) := Save(asked, Acknowledge(m));
      answer.Accepted? && ok ==>
        && Draining(stored, Acknowledge(m)) && NoneApplied(stored.history, Acknowledge(m)) && Quiet(stored.net)
        && stored.history == w.history + [m.outbox[0].mutation]
        && Acknowledge(m).outbox == m.outbox[1..] && |stored.net| < |w.net|
  {
    HeadPushed(w, m);
    QuietHeadPushed(w, m);
    var (asked, answer) := HttpPush(w, m.outbox[0].mutation);
    if answer.Accepted? {
      HeadAcknowledged(asked.history, m, w.device, w.issued);
      hide HttpPush, Inv, OutboxBuilt, NoneApplied, Quiet, HonestNet;
    }
  }

  /** Draining while nobody else pushes appends the queue to the history, in order. */
  lemma {:induction false} QuietDrainAppends(w: World, m: Metadata, pushed: nat)
    requires Draining(w, m) && NoneApplied(w.history, m) && Quiet(w.net)
    ensures DrainOutbox(w, m, pushed).end.Finished? ==>
      DrainOutbox(w, m, pushed).world.history == w.history + MutationsOf(m.outbox)
    decreases |w.net|
  {
    DrainTurn(w, m, pushed);
    if m.outbox == [] {
      assert w.history + MutationsOf(m.outbox) == w.history;
    } else {
      QuietTurn(w, m);
      HeadThenRest(w.history, m.outbox);
      hide HttpPush, MutationsOf, DrainOutbox, Draining, NoneApplied, Quiet, Save, Acknowledge;
      var (asked, answer) := HttpPush(w, m.outbox[0].mutation);
      if answer.Accepted? && Save(asked, Acknowledge(m)).1 {
        QuietDrainAppends(Save(asked, Acknowledge(m)).0, Acknowledge(m), pushed + 1);
      }
    }
  }

  /** The history that uploads these items in order. */
  ghost predicate Uploads(h: History, items: seq<Item>) {
    |h| == |items| && forall k :: 0 <= k < |items| ==> h[k].record == Envelope(items[k].id, 1, Login(items[k]))
  }

  lemma UploadedIsCurrent(h: History, items: seq<Item>, k: nat)
    requires Uploads(h, items) && UniqueIds(items) && k < |h|
    ensures LastIndex(h, h[k].record.recordId) == k
  {
    forall j | k < j < |h|
      ensures h[j].record.recordId != h[k].record.recordId
    {
      assert items[k].id != items[j].id;
    }
    LastIndexIs(h, h[k].record.recordId, k);
  }

  lemma {:induction false} UploadFeed(h: History, items: seq<Item>, after: nat)
    requires Uploads(h, items) && UniqueIds(items) && after <= |h|
    ensures |Feed(h, after)| == |h| - after
    ensures forall k :: 0 <= k < |h| - after ==> Feed(h, after)[k].record == h[after + k].record
    decreases |h| - after
  {
    if after < |h| {
      UploadFeed(h, items, after + 1);
      UploadedIsCurrent(h, items, after);
      FeedStep(h, after);
      hide *;
      var rest := Feed(h, after + 1);
      forall k | 0 <= k < |h| - after
        ensures Feed(h, after)[k].record == h[after + k].record
      {
        if k > 0 {
          assert Feed(h, after)[k] == rest[k - 1];
        }
      }
    }
  }

  lemma {:induction false} UpsertFresh(items: seq<Item>, item: Item)
    requires forall x <- items :: x.id != item.id
    ensures Upsert(items, item) == items + [item]
  {
    if items != [] {
      UpsertFresh(items[1..], item);
      assert items == [items[0]] + items[1..];
    }
  }

  lemma {:induction false} RestoredInOrder(records: seq<Envelope>, items: seq<Item>)
    requires UniqueIds(items) && |records| <= |items|
    requires forall k :: 0 <= k < |records| ==> records[k].plaintext == Login(items[k])
    ensures RestoredItems(records) == items[..|records|]
  {
    if records != [] {
      var n := |records| - 1;
      RestoredInOrder(records[..n], items);
      UpsertFresh(items[..n], items[n]);
      assert items[..n] + [items[n]] == items[..n + 1];
    } else {
      assert items[..0] == [];
    }
  }

  lemma UploadedHistory(items: seq<Item>, records: seq<Envelope>, device: nat)
    requires ConvertVault(items) == Some(records)
    ensures Uploads(MutationsOf(EnabledMetadata(items, records, device).outbox), items)
  {
  }

  /** Draining the queue of a converted vault into an empty one uploads its items in order. */
  lemma ConvertedUploads(w: World)
    requires Running(w) && w.history == [] && Quiet(w.net)
    requires ConvertVault(w.sealed.items).Some?
    requires w.saved == EnabledMetadata(w.sealed.items, ConvertVault(w.sealed.items).value, w.device)
    requires DrainOutbox(w, w.saved, 0).end.Finished?
    ensures UniqueIds(w.sealed.items) && Uploads(DrainOutbox(w, w.saved, 0).world.history, w.sealed.items)
  {
    QuietDrainAppends(w, w.saved, 0);
    var h := MutationsOf(w.saved.outbox);
    assert [] + h == h;
    UploadedHistory(w.sealed.items, ConvertVault(w.sealed.items).value, w.device);
  }

  lemma UploadsRestore(h: History, items: seq<Item>, served: seq<History>, limit: nat, createdAt: Time)
    requires Uploads(h, items) && UniqueIds(items)
    requires limit > 0 && forall k :: 0 <= k < |served| ==> served[k] == h
    ensures var f := FetchPages(0, served, limit);
      f.IsComplete() ==> RestoredDocument(f.records, createdAt).items == items
  {
    hide FetchPages, Feed, RestoredItems, LatestTime, LastIndex, UniqueIds;
    UploadFeed(h, items, 0);
    QuietPullIsFeed(h, 0, served, limit);
    RestoredInOrder(RecordsOf(Feed(h, 0)), items);
    assert items[..|items|] == items;
  }

  /** Converting a version 1 vault, uploading it and restoring it elsewhere returns the same
      logins in the same order, whatever the page size, if nobody else pushes meanwhile. */
  lemma ConvertUploadRestore(w: World, served: seq<History>, limit: nat, createdAt: Time)
    requires Running(w) && w.history == [] && Quiet(w.net)
    requires ConvertVault(w.sealed.items).Some?
    requires w.saved == EnabledMetadata(w.sealed.items, ConvertVault(w.sealed.items).value, w.device)
    requires DrainOutbox(w, w.saved, 0).end.Finished?
    requires limit > 0 && forall k :: 0 <= k < |served| ==> served[k] == DrainOutbox(w, w.saved, 0).world.history
    ensures var f := FetchPages(0, served, limit);
      f.IsComplete() ==> RestoredDocument(f.records, createdAt).items == w.sealed.items
  {
    ConvertedUploads(w);
    UploadsRestore(DrainOutbox(w, w.saved, 0).world.history, w.sealed.items, served, limit, createdAt);
  }
}
