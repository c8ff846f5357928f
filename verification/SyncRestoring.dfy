/** The loops of fetching, restoring and converting a vault, as the program runs them. */
module SyncRestoring {
  import opened SyncModel
  import opened SyncHistory
  import opened SyncServer
  import opened SyncStore
  import opened SyncClient
  import opened SyncPaging
  import R = SyncRestore

  /** Asks for pages from cursor 0 until the server has no more. `pushes[k]` is what other devices
      commit before page `k`; when it is used up the request fails. */
  method FetchRemoteVault(server: Store, pushes: seq<seq<seq<Mutation>>>)
    returns (records: seq<Envelope>, cursor: nat, end: FetchEnd, ghost served: seq<History>)
    requires server.IsValid() && Valid(server.history)
    requires forall batches <- pushes, batch <- batches, x <- batch :: Validated(x)
    modifies server
    ensures server.IsValid() && Valid(server.history)
    ensures |served| <= |pushes| && Growing(served)
    ensures served != [] ==> Extends(old(server.history), served[0]) && server.history == served[|served| - 1]
    ensures var f := FetchPages(0, served, PULL_LIMIT);
      records == f.records && cursor == f.cursor && end == f.end
    ensures end.WantsMore? ==> |served| == |pushes|
  {
    records, cursor, end, served := [], 0, WantsMore, [];
    var k := 0;
    while end.WantsMore? && k < |pushes|
      invariant server.IsValid() && Valid(server.history) && k == |served| <= |pushes|
      invariant Growing(served)
      invariant served == [] ==> server.history == old(server.history)
      invariant served != [] ==> Extends(old(server.history), served[0]) && server.history == served[|served| - 1]
      invariant var f := FetchPages(0, served, PULL_LIMIT);
        records == f.records && cursor == f.cursor && end == f.end
      decreases |pushes| - k
    {
      ghost var before := server.history;
      CommitBatches(server, pushes[k]);
      var reply := server.PullChanges(cursor, PULL_LIMIT);
      FetchOneMore(0, served, server.history, PULL_LIMIT);
      MoreServed(served, before, server.history);
      served := served + [server.history];
      match reply {
        case Err(e) =>
          end := FetchRefused(e);
        case Ok(page) =>
          records := records + RecordsOf(page.changes);
          cursor := page.nextCursor;
          end := if page.hasMore then WantsMore else Complete;
      }
      k := k + 1;
    }
  }

  lemma MoreServed(served: seq<History>, before: History, h: History)
    requires Growing(served) && Valid(h) && Extends(before, h)
    requires served != [] ==> before == served[|served| - 1]
    ensures Growing(served + [h])
  {
    assert forall x :: x in served + [h] ==> x in served || x == h;
  }

  method CommitBatches(server: Store, batches: seq<seq<Mutation>>)
    requires server.IsValid() && Valid(server.history)
    requires forall batch <- batches, x <- batch :: Validated(x)
    modifies server
    ensures server.IsValid() && Valid(server.history) && Extends(old(server.history), server.history)
    ensures server.history == CommitAll(old(server.history), batches)
  {
    ghost var start := server.history;
    assert start[..|start|] == start;
    for k := 0 to |batches|
      invariant server.IsValid() && Valid(server.history) && Extends(start, server.history)
      invariant CommitAll(start, batches) == CommitAll(server.history, batches[k..])
    {
      ghost var before := server.history;
      assert batches[k] in batches;
      assert batches[k..][0] == batches[k] && batches[k..][1..] == batches[k + 1..];
      var _ := server.PushMutations(batches[k]);
      BatchIsAtomic(before, batches[k]);
      ExtendsTransitive(start, before, server.history);
    }
    assert batches[|batches|..] == [];
  }

  /** The items of the new vault, kept in a map in the order in which they were first set. */
  method RestoreDocument(records: seq<Envelope>, createdAt: Time) returns (document: Document)
    ensures document == R.RestoredDocument(records, createdAt)
  {
    var items := [];
    var latest := createdAt;
    for k := 0 to |records|
      invariant items == R.RestoredItems(records[..k])
      invariant latest == R.LatestTime(records[..k], createdAt)
    {
      assert records[..k + 1][..k] == records[..k];
      match records[k].plaintext {
        case Login(item) =>
          items := R.Upsert(items, item);
          if item.updatedAt > latest {
            latest := item.updatedAt;
          }
        case Tombstone(deletedAt) =>
          items := Without(items, records[k].recordId);
          if deletedAt > latest {
            latest := deletedAt;
          }
      }
    }
    assert records[..|records|] == records;
    document := Document(items, latest);
  }

  /** One login record per item at revision 1; a repeated id is refused. */
  method ConvertVault(items: seq<Item>) returns (records: Option<seq<Envelope>>)
    ensures records == R.ConvertVault(items)
  {
    var itemIds := {};
    for k := 0 to |items|
      invariant itemIds == set j | 0 <= j < k :: items[j].id
      invariant forall i, j :: 0 <= i < j < k ==> items[i].id != items[j].id
    {
      if items[k].id in itemIds {
        assert exists j :: 0 <= j < k && items[j].id == items[k].id;
        return None;
      }
      itemIds := itemIds + {items[k].id};
    }
    var converted := [];
    for k := 0 to |items|
      invariant |converted| == k
      invariant forall j :: 0 <= j < k ==> converted[j] == Envelope(items[j].id, 1, Login(items[j]))
    {
      converted := converted + [Envelope(items[k].id, 1, Login(items[k]))];
    }
    assert converted == R.ConvertVault(items).value;
    records := Some(converted);
  }
}
