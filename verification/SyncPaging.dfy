/** Pulling page by page while others push between the pages. */
module SyncPaging {
  import opened SyncModel
  import opened SyncHistory
  import opened SyncServer
  import opened SyncQueue

  /** What a sequence of pages brought; `asOf` is the history that served the last of them. */
  datatype Fetched = Fetched(records: seq<Envelope>, cursor: nat, end: FetchEnd, asOf: History)
  {
    predicate IsComplete() {
      end.Complete?
    }
  }

  datatype FetchEnd = WantsMore | Complete | FetchRefused(error: PullError)

  function RecordsOf(changes: seq<Change>): (r: seq<Envelope>)
    ensures |r| == |changes| && forall k :: 0 <= k < |r| ==> r[k] == changes[k].record
  {
    seq(|changes|, k requires 0 <= k < |changes| => changes[k].record)
  }

  /** `served[k]` is the history when page `k` is asked for. */
  function FetchPages(cursor: nat, served: seq<History>, limit: nat): Fetched
    requires limit > 0
    decreases |served|
  {
    if served == [] then Fetched([], cursor, WantsMore, [])
    else
      match PullPage(served[0], cursor, limit)
      case Err(e) => Fetched([], cursor, FetchRefused(e), served[0])
      case Ok(page) =>
        if !page.hasMore then Fetched(RecordsOf(page.changes), page.nextCursor, Complete, served[0])
        else
          Preceded(RecordsOf(page.changes), FetchPages(page.nextCursor, served[1..], limit))
  }

  function Preceded(records: seq<Envelope>, f: Fetched): Fetched {
    f.(records := records + f.records)
  }

  /** The last envelope received for a record. */
  function Newest(records: seq<Envelope>, r: RecordId): Option<Envelope> {
    if records == [] then None
    else if records[|records| - 1].recordId == r then Some(records[|records| - 1])
    else Newest(records[..|records| - 1], r)
  }

  ghost predicate Growing(served: seq<History>) {
    && (forall h <- served :: Valid(h))
    && (forall k :: 0 <= k < |served| - 1 ==> Extends(served[k], served[k + 1]))
  }

  lemma {:induction false} NewestOfJoined(a: seq<Envelope>, b: seq<Envelope>, r: RecordId)
    ensures Newest(a + b, r) == if Newest(b, r).Some? then Newest(b, r) else Newest(a, r)
  {
    if b == [] {
      assert a + b == a;
    } else {
      assert (a + b)[..|a + b| - 1] == a + b[..|b| - 1];
      NewestOfJoined(a, b[..|b| - 1], r);
    }
  }

  lemma {:induction false} NewestIs(records: seq<Envelope>, r: RecordId)
    ensures Newest(records, r).None? <==> forall e <- records :: e.recordId != r
    ensures Newest(records, r).Some? ==> Newest(records, r).value in records && Newest(records, r).value.recordId == r
  {
    if records != [] {
      NewestIs(records[..|records| - 1], r);
      InLonger(records[..|records| - 1], records[|records| - 1]);
      assert records == records[..|records| - 1] + [records[|records| - 1]];
    }
  }

  /** What one page says about a record: its current version, if the page passed it. */
  lemma NewestOfPage(h: History, after: nat, upTo: nat, changes: seq<Change>, r: RecordId)
    requires RowsBetween(h, after, upTo, changes)
    ensures Newest(RecordsOf(changes), r) ==
            if after <= LastIndex(h, r) < upTo then Some(h[LastIndex(h, r)].record) else None
  {
    var records := RecordsOf(changes);
    NewestIs(records, r);
    if after <= LastIndex(h, r) < upTo {
      assert Delivers(changes, r);
      var k :| 0 <= k < |changes| && changes[k].record.recordId == r;
      assert records[k].recordId == r;
    }
    if Newest(records, r).Some? {
      var k :| 0 <= k < |records| && records[k] == Newest(records, r).value;
      assert CurrentRow(h, after, upTo, changes[k]);
    }
  }

  /** The last envelope received for every record written after `cursor` is its current one. */
  ghost predicate DeliveredFrom(f: Fetched, cursor: nat) {
    forall r :: Newest(f.records, r) ==
      if LastIndex(f.asOf, r) >= cursor then Some(f.asOf[LastIndex(f.asOf, r)].record) else None
  }

  lemma FirstPageStands(h: History, cursor: nat, page: Page, rest: Fetched)
    requires RowsBetween(h, cursor, page.nextCursor, page.changes)
    requires Extends(h, rest.asOf) && DeliveredFrom(rest, page.nextCursor)
    ensures DeliveredFrom(Preceded(RecordsOf(page.changes), rest), cursor)
  {
    var all := RecordsOf(page.changes) + rest.records;
    forall r
      ensures Newest(all, r) ==
        if LastIndex(rest.asOf, r) >= cursor then Some(rest.asOf[LastIndex(rest.asOf, r)].record) else None
    {
      NewestOfJoined(RecordsOf(page.changes), rest.records, r);
      NewestOfPage(h, cursor, page.nextCursor, page.changes, r);
      ExtendsLastIndex(h, rest.asOf, r);
      assert forall i :: 0 <= i < |h| ==> rest.asOf[i] == h[i];
    }
  }

  /** Completeness under concurrency: whatever is pushed between the pages, once `hasMore` is
      false the device has, for every record written after its cursor, the version that was
      current when the last page was served; and it has nothing about other records. */
  lemma {:induction false} PagedPullIsComplete(cursor: nat, served: seq<History>, limit: nat)
    requires limit > 0 && served != [] && Growing(served) && cursor <= |served[0]|
    ensures var f := FetchPages(cursor, served, limit); f.IsComplete() ==>
      && f.asOf in served && Valid(f.asOf) && Extends(served[0], f.asOf)
      && f.cursor == |f.asOf|
      && DeliveredFrom(f, cursor)
    decreases |served|
  {
    var h := served[0];
    PageIsRows(h, cursor, limit);
    var page := PullPage(h, cursor, limit).value;
    assert h[..|h|] == h;
    if page.hasMore {
      if |served| > 1 {
        var rest := FetchPages(page.nextCursor, served[1..], limit);
        assert Growing(served[1..]) && Extends(h, served[1]);
        PagedPullIsComplete(page.nextCursor, served[1..], limit);
        if rest.IsComplete() {
          ExtendsTransitive(h, served[1], rest.asOf);
          FirstPageStands(h, cursor, page, rest);
        }
      }
    } else {
      forall r {
        NewestOfPage(h, cursor, page.nextCursor, page.changes, r);
      }
    }
  }

  /** Once pushes stop, a pull ends: each page that promises more advances the cursor. */
  lemma {:induction false} QuietPullEnds(h: History, cursor: nat, served: seq<History>, limit: nat)
    requires limit > 0 && cursor <= |h| && forall k :: 0 <= k < |served| ==> served[k] == h
    requires |served| > |h| - cursor
    ensures FetchPages(cursor, served, limit).IsComplete()
    decreases |served|
  {
    PageIsRows(h, cursor, limit);
    var page := PullPage(h, cursor, limit).value;
    assert served[0] == h;
    if page.hasMore {
      QuietPullEnds(h, page.nextCursor, served[1..], limit);
    }
  }

  /******* Pages of an unchanging history are cuts of its feed *******/

  lemma {:induction false} FeedAfterRow(h: History, after: nat, k: nat)
    requires after <= |h| && k < |Feed(h, after)|
    ensures after < Feed(h, after)[k].cursor <= |h|
    ensures Feed(h, Feed(h, after)[k].cursor) == Feed(h, after)[k + 1..]
    decreases |h| - after
  {
    var rest := Feed(h, after + 1);
    if LastIndex(h, h[after].record.recordId) == after {
      assert Feed(h, after)[1..] == rest;
      if k > 0 {
        FeedAfterRow(h, after + 1, k - 1);
        assert Feed(h, after)[k] == rest[k - 1];
      }
    } else {
      assert Feed(h, after) == rest;
      FeedAfterRow(h, after + 1, k);
    }
  }

  lemma RecordsOfCut(rows: seq<Change>, n: nat)
    requires n <= |rows|
    ensures RecordsOf(rows) == RecordsOf(rows[..n]) + RecordsOf(rows[n..])
  {
  }

  /** The first page is a prefix of the feed, and the feed after its cursor is the rest. */
  lemma PageCutsFeed(h: History, cursor: nat, limit: nat)
    requires limit > 0 && cursor <= |h|
    ensures var page := PullPage(h, cursor, limit).value;
      && PullPage(h, cursor, limit).Ok?
      && (!page.hasMore ==> page.changes == Feed(h, cursor) && page.nextCursor == |h|)
      && (page.hasMore ==>
            && cursor < page.nextCursor <= |h|
            && RecordsOf(Feed(h, cursor)) == RecordsOf(page.changes) + RecordsOf(Feed(h, page.nextCursor)))
  {
    var rows := Feed(h, cursor);
    if |rows| > limit {
      FeedAfterRow(h, cursor, limit - 1);
      RecordsOfCut(rows, limit);
    }
  }

  /** Pages of a history that nobody extends, put together, are its feed. */
  lemma {:induction false} QuietPullIsFeed(h: History, cursor: nat, served: seq<History>, limit: nat)
    requires limit > 0 && cursor <= |h| && forall k :: 0 <= k < |served| ==> served[k] == h
    ensures var f := FetchPages(cursor, served, limit); f.IsComplete() ==>
      f.records == RecordsOf(Feed(h, cursor)) && f.cursor == |h|
    decreases |served|
  {
    if served != [] {
      assert served[0] == h;
      PageCutsFeed(h, cursor, limit);
      var page := PullPage(h, cursor, limit).value;
      if page.hasMore {
        QuietPullIsFeed(h, page.nextCursor, served[1..], limit);
      }
    }
  }

  lemma PrecededTwice(first: seq<Envelope>, second: seq<Envelope>, f: Fetched)
    ensures Preceded(first, Preceded(second, f)) == Preceded(first + second, f)
  {
    assert first + (second + f.records) == (first + second) + f.records;
  }

  /** Asking for one more page. */
  lemma {:induction false} FetchOneMore(cursor: nat, served: seq<History>, h: History, limit: nat)
    requires limit > 0 && FetchPages(cursor, served, limit).end.WantsMore?
    ensures var f := FetchPages(cursor, served, limit);
      FetchPages(cursor, served + [h], limit) == Preceded(f.records, FetchPages(f.cursor, [h], limit))
    decreases |served|
  {
    if served == [] {
      assert served + [h] == [h];
      PrecededByNone(FetchPages(cursor, [h], limit));
    } else {
      var page := PullPage(served[0], cursor, limit).value;
      var all := served + [h];
      assert all[0] == served[0] && all[1..] == served[1..] + [h];
      FetchOneMore(page.nextCursor, served[1..], h, limit);
      var f := FetchPages(page.nextCursor, served[1..], limit);
      PrecededTwice(RecordsOf(page.changes), f.records, FetchPages(f.cursor, [h], limit));
    }
  }

  lemma PrecededByNone(f: Fetched)
    ensures Preceded([], f) == f
  {
    assert [] + f.records == f.records;
  }
}
