/** What queueing local changes adds to the outbox, and that it keeps the invariant. */
module SyncQueue {
  import opened SyncModel
  import opened SyncHistory
  import opened SyncClient
  import opened SyncDocuments
  import opened SyncInvariant

  ghost predicate Numbered(q: seq<Pending>, device: nat, serial: nat) {
    forall k :: 0 <= k < |q| ==> q[k].mutation.id == MutationId(device, serial + k)
  }

  ghost predicate RecordsDiffer(q: seq<Pending>) {
    forall j, k :: 0 <= j < k < |q| ==> q[j].mutation.record.recordId != q[k].mutation.record.recordId
  }

  /** `p` uploads a login of `items` that was changed here. */
  ghost predicate UploadsFrom(m: Metadata, items: seq<Item>, p: Pending) {
    exists item <- items ::
      && p.mutation.baseRevision == KnownRevision(m, item.id)
      && p.mutation.record == Envelope(item.id, KnownRevision(m, item.id) + 1, Login(item))
      && p.stamp == Some(item.updatedAt)
      && item.id !in QueuedIds(m) && NeedsUpload(m, item)
  }

  ghost predicate Uploaded(q: seq<Pending>, item: Item) {
    exists p <- q :: p.mutation.record.recordId == item.id && p.mutation.record.plaintext == Login(item)
  }

  ghost predicate DeletesFrom(m: Metadata, document: Document, keys: seq<RecordId>, p: Pending) {
    var r := p.mutation.record.recordId;
    && p.mutation.baseRevision == KnownRevision(m, r)
    && p.mutation.record == Envelope(r, KnownRevision(m, r) + 1, Tombstone(document.updatedAt))
    && p.stamp.None?
    && r in keys && r !in QueuedIds(m) && NeedsDeletion(m, document, r)
  }

  ghost predicate Deleted(q: seq<Pending>, r: RecordId) {
    exists p <- q :: p.mutation.record.recordId == r && p.mutation.record.plaintext.Tombstone?
  }

  lemma InLonger<T>(s: seq<T>, x: T)
    ensures forall y :: y in s + [x] <==> y in s || y == x
  {
  }

  lemma OneMoreNumbered(q: seq<Pending>, p: Pending, device: nat, serial: nat)
    requires Numbered(q, device, serial) && RecordsDiffer(q) && p.mutation.id == MutationId(device, serial + |q|)
    ensures Numbered(q + [p], device, serial) && forall x :: x in q + [p] <==> x in q || x == p
    ensures (forall x <- q :: x.mutation.record.recordId != p.mutation.record.recordId) ==> RecordsDiffer(q + [p])
  {
    InLonger(q, p);
  }

  /** One login per changed item, numbered in order; nothing else. */
  lemma {:induction false} QueuedItems(m: Metadata, items: seq<Item>, device: nat, serial: nat)
    requires UniqueIds(items)
    ensures var q := QueueItems(m, items, device, serial);
      && Numbered(q, device, serial)
      && RecordsDiffer(q)
      && (forall p <- q :: UploadsFrom(m, items, p))
  {
    if items != [] {
      var before := items[..|items| - 1];
      var item := items[|items| - 1];
      QueuedItems(m, before, device, serial);
      assert items == before + [item];
      InLonger(before, item);
      var q := QueueItems(m, before, device, serial);
      var p := LoginMutation(MutationId(device, serial + |q|), KnownRevision(m, item.id), item);
      var needed := item.id !in QueuedIds(m) && NeedsUpload(m, item);
      assert QueueItems(m, items, device, serial) == if needed then q + [p] else q;
      assert needed ==> UploadsFrom(m, items, p);
      hide UploadsFrom, NeedsUpload, QueuedIds, QueueItems;
      forall x | x in q
        ensures UploadsFrom(m, items, x) && x.mutation.record.recordId != item.id
      {
        UploadsFromMore(m, before, item, x);
      }
      OneMoreNumbered(q, p, device, serial);
    }
  }

  lemma UploadsFromMore(m: Metadata, items: seq<Item>, item: Item, p: Pending)
    requires UploadsFrom(m, items, p) && UniqueIds(items + [item])
    ensures UploadsFrom(m, items + [item], p) && p.mutation.record.recordId != item.id
  {
    var x :| x in items && p.stamp == Some(x.updatedAt)
      && p.mutation.record == Envelope(x.id, KnownRevision(m, x.id) + 1, Login(x))
      && x.id !in QueuedIds(m) && NeedsUpload(m, x);
    InLonger(items, item);
    var k :| 0 <= k < |items| && items[k] == x;
    assert (items + [item])[k] == x && (items + [item])[|items|] == item;
  }

  lemma UploadedInLonger(q: seq<Pending>, p: Pending, item: Item)
    requires Uploaded(q, item) || (p.mutation.record.recordId == item.id && p.mutation.record.plaintext == Login(item))
    ensures Uploaded(q + [p], item)
  {
    InLonger(q, p);
  }

  lemma {:induction false} ChangedItemsQueued(m: Metadata, items: seq<Item>, device: nat, serial: nat, x: Item)
    requires x in items && x.id !in QueuedIds(m) && NeedsUpload(m, x)
    ensures Uploaded(QueueItems(m, items, device, serial), x)
  {
    var before := items[..|items| - 1];
    var item := items[|items| - 1];
    var q := QueueItems(m, before, device, serial);
    if x in before {
      ChangedItemsQueued(m, before, device, serial, x);
    } else {
      assert items == before + [item];
      InLonger(before, item);
    }
    UploadedInLonger(q, LoginMutation(MutationId(device, serial + |q|), KnownRevision(m, item.id), item), x);
  }

  /** One tombstone per record that was deleted here, numbered in order; nothing else. */
  lemma {:induction false} QueuedDeletions(
    m: Metadata, document: Document, keys: seq<RecordId>, device: nat, serial: nat)
    requires forall i, j :: 0 <= i < j < |keys| ==> keys[i] != keys[j]
    ensures var q := QueueDeletions(m, document, keys, device, serial);
      && Numbered(q, device, serial)
      && RecordsDiffer(q)
      && (forall p <- q :: DeletesFrom(m, document, keys, p))
  {
    if keys != [] {
      var before := keys[..|keys| - 1];
      var r := keys[|keys| - 1];
      QueuedDeletions(m, document, before, device, serial);
      assert keys == before + [r];
      InLonger(before, r);
      var q := QueueDeletions(m, document, before, device, serial);
      forall p | p in q
        ensures DeletesFrom(m, document, keys, p) && p.mutation.record.recordId != r
      {
        assert DeletesFrom(m, document, before, p);
      }
      var p := DeletionMutation(MutationId(device, serial + |q|), KnownRevision(m, r), r, document.updatedAt);
      OneMoreNumbered(q, p, device, serial);
    }
  }

  lemma DeletedInLonger(q: seq<Pending>, p: Pending, r: RecordId)
    requires Deleted(q, r) || (p.mutation.record.recordId == r && p.mutation.record.plaintext.Tombstone?)
    ensures Deleted(q + [p], r)
  {
    InLonger(q, p);
  }

  lemma {:induction false} DeletedRecordsQueued(
    m: Metadata, document: Document, keys: seq<RecordId>, device: nat, serial: nat, x: RecordId)
    requires x in keys && x !in QueuedIds(m) && NeedsDeletion(m, document, x)
    ensures Deleted(QueueDeletions(m, document, keys, device, serial), x)
  {
    var before := keys[..|keys| - 1];
    var r := keys[|keys| - 1];
    var q := QueueDeletions(m, document, before, device, serial);
    if x in before {
      DeletedRecordsQueued(m, document, before, device, serial, x);
    } else {
      assert keys == before + [r];
      InLonger(before, r);
    }
    var p := DeletionMutation(MutationId(device, serial + |q|), KnownRevision(m, r), r, document.updatedAt);
    DeletedInLonger(q, p, x);
  }

  /** Everything queued: numbered, on different records, none of them queued before, each
      built on the recorded revision. */
  lemma NewMutationsAre(m: Metadata, document: Document, keys: seq<RecordId>, device: nat, serial: nat)
    requires UniqueIds(document.items) && Enumerates(keys, m)
    ensures var q := NewMutations(m, document, keys, device, serial);
      && Numbered(q, device, serial)
      && RecordsDiffer(q)
      && (forall p <- q :: UploadsFrom(m, document.items, p) || DeletesFrom(m, document, keys, p))
  {
    var uploads := QueueItems(m, document.items, device, serial);
    var deletions := QueueDeletions(m, document, keys, device, serial + |uploads|);
    QueuedItems(m, document.items, device, serial);
    QueuedDeletions(m, document, keys, device, serial + |uploads|);
    var q := NewMutations(m, document, keys, device, serial);
    assert q == uploads + deletions;
    hide NewMutations, QueueItems, QueueDeletions;
    forall p, d | p in uploads && d in deletions
      ensures p.mutation.record.recordId != d.mutation.record.recordId
    {
      assert UploadsFrom(m, document.items, p) && DeletesFrom(m, document, keys, d);
      FindSound(document.items, d.mutation.record.recordId);
    }
  }

  /** Everything that changed here is queued. */
  lemma AllChangesQueued(m: Metadata, document: Document, keys: seq<RecordId>, device: nat, serial: nat)
    requires Enumerates(keys, m)
    ensures var q := NewMutations(m, document, keys, device, serial);
      && (forall item <- document.items :: item.id in QueuedIds(m) || !NeedsUpload(m, item) || Uploaded(q, item))
      && (forall r :: NeedsDeletion(m, document, r) ==> r in QueuedIds(m) || Deleted(q, r))
  {
    var uploads := QueueItems(m, document.items, device, serial);
    var deletions := QueueDeletions(m, document, keys, device, serial + |uploads|);
    var q := NewMutations(m, document, keys, device, serial);
    assert forall p :: p in q <==> p in uploads || p in deletions;
    forall item | item in document.items && item.id !in QueuedIds(m) && NeedsUpload(m, item)
      ensures Uploaded(q, item)
    {
      ChangedItemsQueued(m, document.items, device, serial, item);
    }
    forall r | NeedsDeletion(m, document, r) && r !in QueuedIds(m)
      ensures Deleted(q, r)
    {
      DeletedRecordsQueued(m, document, keys, device, serial + |uploads|, r);
    }
  }

  lemma AddedIsBuilt(m: Metadata, document: Document, keys: seq<RecordId>, p: Pending, device: nat, issued: nat)
    requires UploadsFrom(m, document.items, p) || DeletesFrom(m, document, keys, p)
    requires p.mutation.record.revision <= MAX_WIRE_BIGINT
    requires p.mutation.id.device == device && p.mutation.id.serial < issued
    ensures BuiltOn(m, p, device, issued) && p.mutation.record.recordId !in QueuedIds(m)
  {
  }

  /** Queueing keeps the invariant; nothing that it adds is on the server. */
  lemma QueueingKeeps(h: History, m: Metadata, document: Document, keys: seq<RecordId>, device: nat, issued: nat)
    requires Inv(h, m, device, issued) && UniqueIds(document.items) && Enumerates(keys, m)
    requires forall p <- NewMutations(m, document, keys, device, issued) ::
      p.mutation.record.revision <= MAX_WIRE_BIGINT
    ensures var added := NewMutations(m, document, keys, device, issued);
      && Inv(h, EnqueueLocalChanges(m, document, keys, device, issued), device, issued + |added|)
      && (forall p <- added :: IndexOfId(h, p.mutation.id) < 0)
  {
    var added := NewMutations(m, document, keys, device, issued);
    var after := EnqueueLocalChanges(m, document, keys, device, issued);
    NewMutationsAre(m, document, keys, device, issued);
    hide NewMutations, EnqueueLocalChanges, Enumerates, UniqueIds, UploadsFrom, DeletesFrom, LastIndex, Valid;
    forall p | p in added
      ensures BuiltOn(after, p, device, issued + |added|) && p.mutation.record.recordId !in QueuedIds(m)
      ensures IndexOfId(h, p.mutation.id) < 0 && p.mutation.id.serial >= issued
    {
      var k :| 0 <= k < |added| && added[k] == p;
      AddedIsBuilt(m, document, keys, p, device, issued + |added|);
    }
    OneMorePerRecord(m, added, device, issued);
    forall p | p in after.outbox
      ensures BuiltOn(after, p, device, issued + |added|)
      ensures IndexOfId(h, p.mutation.id) >= 0 ==> p in m.outbox && after.outbox[0] == m.outbox[0]
    {
      if p in m.outbox {
        assert BuiltOn(m, p, device, issued);
      }
    }
    QueuedKeepsKnowledge(h, m, after);
  }

  lemma QueuedKeepsKnowledge(h: History, m: Metadata, after: Metadata)
    requires KnowsUpToCursor(h, m) && after == m.(outbox := after.outbox)
    ensures KnowsUpToCursor(h, after)
  {
    forall r | 0 <= LastIndex(h, r) < after.cursor
      ensures Knows(after, r, Revision(h, r))
    {
      assert Knows(m, r, Revision(h, r));
    }
  }

  lemma OneMorePerRecord(m: Metadata, added: seq<Pending>, device: nat, issued: nat)
    requires OutboxBuilt(m, device, issued)
    requires Numbered(added, device, issued) && RecordsDiffer(added)
    requires forall p <- added :: p.mutation.record.recordId !in QueuedIds(m)
    ensures OnePerRecord(m.outbox + added)
  {
    forall j, k | 0 <= j < |m.outbox| && 0 <= k < |added|
      ensures m.outbox[j].mutation.record.recordId != added[k].mutation.record.recordId
      ensures m.outbox[j].mutation.id != added[k].mutation.id
    {
      assert m.outbox[j] in m.outbox && added[k] in added;
      assert BuiltOn(m, m.outbox[j], device, issued);
      assert m.outbox[j].mutation.record.recordId in QueuedIds(m);
    }
  }

  /******* The order of what is queued *******/

  /** The logins that are queued for upload, in the order of the document. */
  function Uploads(m: Metadata, items: seq<Item>): seq<Item> {
    if items == [] then []
    else
      var n := |items| - 1;
      Uploads(m, items[..n]) + if items[n].id in QueuedIds(m) || !NeedsUpload(m, items[n]) then [] else [items[n]]
  }

  /** The records that are queued for deletion, in the order in which they are enumerated. */
  function Deletions(m: Metadata, document: Document, keys: seq<RecordId>): seq<RecordId> {
    if keys == [] then []
    else
      var n := |keys| - 1;
      Deletions(m, document, keys[..n]) +
      if keys[n] in QueuedIds(m) || !NeedsDeletion(m, document, keys[n]) then [] else [keys[n]]
  }

  ghost predicate Upload(q: seq<Pending>, logins: seq<Item>) {
    |q| == |logins| && forall k :: 0 <= k < |q| ==> q[k].mutation.record.plaintext == Login(logins[k])
  }

  ghost predicate Delete(q: seq<Pending>, records: seq<RecordId>) {
    |q| == |records| && forall k :: 0 <= k < |q| ==>
      q[k].mutation.record.recordId == records[k] && q[k].mutation.record.plaintext.Tombstone?
  }

  lemma {:induction false} UploadsInOrder(m: Metadata, items: seq<Item>, device: nat, serial: nat)
    ensures var q := QueueItems(m, items, device, serial);
      Upload(q, Uploads(m, items))
  {
    if items != [] {
      UploadsInOrder(m, items[..|items| - 1], device, serial);
    }
  }

  lemma {:induction false} DeletionsInOrder(
    m: Metadata, document: Document, keys: seq<RecordId>, device: nat, serial: nat)
    ensures var q := QueueDeletions(m, document, keys, device, serial);
      Delete(q, Deletions(m, document, keys))
  {
    if keys != [] {
      DeletionsInOrder(m, document, keys[..|keys| - 1], device, serial);
    }
  }

  /** Changed logins are queued first, in the order of the document, then the deletions. */
  lemma QueuedInOrder(m: Metadata, document: Document, keys: seq<RecordId>, device: nat, serial: nat)
    ensures var q := NewMutations(m, document, keys, device, serial);
      var uploads, deletions := Uploads(m, document.items), Deletions(m, document, keys);
      && |q| == |uploads| + |deletions|
      && Upload(q[..|uploads|], uploads) && Delete(q[|uploads|..], deletions)
  {
    var before := QueueItems(m, document.items, device, serial);
    var after := QueueDeletions(m, document, keys, device, serial + |before|);
    UploadsInOrder(m, document.items, device, serial);
    DeletionsInOrder(m, document, keys, device, serial + |before|);
    assert (before + after)[..|before|] == before && (before + after)[|before|..] == after;
    hide Upload, Delete, QueueItems, QueueDeletions, Uploads, Deletions;
  }
}
