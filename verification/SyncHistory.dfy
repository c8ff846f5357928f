/** The reference definition of a sync vault: the sequence of mutations it has applied.

  Entry `i` of a history was given cursor `i + 1`. Everything a server answers is a
  function of that sequence. `SyncStore` keeps compacted tables instead and is proved
  to give the same answers.
 */
module SyncHistory {
  import opened SyncModel

  type History = seq<Mutation>

  datatype PushError =
    | RevisionConflict(id: MutationId, recordId: RecordId, expectedBase: nat, current: nat)
    | MutationIdReused(id: MutationId)
    | CursorExhausted

  datatype Status = Applied | Replayed

  datatype MutationResult =
    MutationResult(id: MutationId, recordId: RecordId, revision: nat, cursor: nat, status: Status)

  datatype Change = Change(cursor: nat, record: Envelope)

  datatype Page = Page(changes: seq<Change>, nextCursor: nat, hasMore: bool)

  datatype PullError = CursorAhead(currentCursor: nat)

  /******* Records within a history *******/

  /** Index of the newest mutation of a record, or -1. */
  function LastIndex(h: History, r: RecordId): (i: int)
    ensures -1 <= i < |h|
    ensures i >= 0 ==> h[i].record.recordId == r
    ensures forall j :: i < j < |h| ==> h[j].record.recordId != r
  {
    if h == [] then -1
    else if h[|h| - 1].record.recordId == r then |h| - 1
    else LastIndex(h[..|h| - 1], r)
  }

  /** The current revision of a record; 0 when it has none. */
  function Revision(h: History, r: RecordId): nat {
    var i := LastIndex(h, r);
    if i < 0 then 0 else h[i].record.revision
  }

  /** How many mutations of a record the history holds. */
  function Count(h: History, r: RecordId): nat {
    if h == [] then 0
    else Count(h[..|h| - 1], r) + if h[|h| - 1].record.recordId == r then 1 else 0
  }

  /** Index of the mutation with a given id, or -1. */
  function IndexOfId(h: History, id: MutationId): (i: int)
    ensures -1 <= i < |h|
    ensures i >= 0 ==> h[i].id == id
    ensures forall j :: i < j < |h| ==> h[j].id != id
  {
    if h == [] then -1
    else if h[|h| - 1].id == id then |h| - 1
    else IndexOfId(h[..|h| - 1], id)
  }

  /** The server may append `m` to `h`. */
  ghost predicate Admissible(h: History, m: Mutation) {
    && Validated(m)
    && |h| < MAX_WIRE_BIGINT
    && IndexOfId(h, m.id) < 0
    && m.baseRevision == Revision(h, m.record.recordId)
  }

  /** No id is used twice, and every entry has a cursor: what holds even of requests that were
      not validated. */
  ghost predicate Numbered(h: History) {
    && |h| <= MAX_WIRE_BIGINT
    && forall i, j :: 0 <= i < j < |h| ==> h[i].id != h[j].id
  }

  ghost predicate AdmittedAt(h: History, i: nat)
    requires i < |h|
  {
    Admissible(h[..i], h[i])
  }

  /** Every entry was admissible when it was appended. */
  ghost predicate Valid(h: History) {
    forall i: nat :: i < |h| ==> AdmittedAt(h, i)
  }

  lemma LastIndexIs(h: History, r: RecordId, i: nat)
    requires i < |h| && h[i].record.recordId == r
    requires forall j :: i < j < |h| ==> h[j].record.recordId != r
    ensures LastIndex(h, r) == i
  {
    assert LastIndex(h, r) >= i;
  }

  lemma LastIndexAppend(h: History, m: Mutation, r: RecordId)
    ensures LastIndex(h + [m], r) == if m.record.recordId == r then |h| else LastIndex(h, r)
  {
    assert (h + [m])[..|h|] == h;
  }

  lemma IndexOfIdAppend(h: History, m: Mutation, id: MutationId)
    ensures IndexOfId(h + [m], id) == if m.id == id then |h| else IndexOfId(h, id)
  {
    assert (h + [m])[..|h|] == h;
  }

  lemma ValidAppend(h: History, m: Mutation)
    requires Valid(h) && Admissible(h, m)
    ensures Valid(h + [m])
  {
    forall i: nat | i < |h + [m]|
      ensures AdmittedAt(h + [m], i)
    {
      assert (h + [m])[..i] == h[..i];
      assert h[..|h|] == h;
      assert i < |h| ==> AdmittedAt(h, i);
    }
  }

  lemma ValidPrefix(h: History, n: nat)
    requires Valid(h) && n <= |h|
    ensures Valid(h[..n])
  {
    forall i: nat | i < n
      ensures AdmittedAt(h[..n], i)
    {
      assert h[..n][..i] == h[..i];
      assert AdmittedAt(h, i);
    }
  }

  /** Ids are used once. */
  lemma DistinctIds(h: History, i: nat, j: nat)
    requires Valid(h) && i < j < |h|
    ensures h[i].id != h[j].id
  {
    assert AdmittedAt(h, j);
    assert h[..j][i] == h[i];
  }

  /******* The history invariant: cursors, revisions, current rows *******/

  /** The current revision of a record counts its mutations. */
  lemma {:induction false} RevisionCounts(h: History, r: RecordId)
    requires Valid(h)
    ensures Revision(h, r) == Count(h, r)
  {
    if h != [] {
      var n := |h| - 1;
      ValidPrefix(h, n);
      RevisionCounts(h[..n], r);
      assert h == h[..n] + [h[n]];
      LastIndexAppend(h[..n], h[n], r);
      assert AdmittedAt(h, n);
    }
  }

  /** The mutations of one record carry revisions 1, 2, 3, ... in cursor order. */
  lemma RevisionsAreConsecutive(h: History, i: nat)
    requires Valid(h) && i < |h|
    ensures h[i].record.revision == Count(h[..i + 1], h[i].record.recordId)
    ensures h[i].baseRevision == Count(h[..i], h[i].record.recordId)
  {
    var r := h[i].record.recordId;
    ValidPrefix(h, i);
    RevisionCounts(h[..i], r);
    assert AdmittedAt(h, i);
    assert h[..i + 1][..i] == h[..i];
  }

  /** A later mutation of a record has a higher revision. */
  lemma {:induction false} RevisionsIncrease(h: History, i: nat, j: nat)
    requires Valid(h) && i < j < |h|
    requires h[i].record.recordId == h[j].record.recordId
    ensures h[i].record.revision < h[j].record.revision
    decreases j
  {
    var r := h[j].record.recordId;
    assert AdmittedAt(h, j);
    var k := LastIndex(h[..j], r);
    assert h[..j][i].record.recordId == r;
    assert i <= k && h[..j][k] == h[k];
    if i < k {
      RevisionsIncrease(h, i, k);
    }
  }

  /** One mutation wrote each revision of a record. */
  lemma RevisionNamesMutation(h: History, i: nat, j: nat)
    requires Valid(h) && i < |h| && j < |h|
    requires h[i].record.recordId == h[j].record.recordId
    requires h[i].record.revision == h[j].record.revision
    ensures i == j
  {
    if i < j {
      RevisionsIncrease(h, i, j);
    } else if j < i {
      RevisionsIncrease(h, j, i);
    }
  }

  /** No entry of a record is above its current revision, and only the current one reaches it. */
  lemma RevisionIsHighest(h: History, i: nat)
    requires Valid(h) && i < |h|
    ensures 1 <= h[i].record.revision <= Revision(h, h[i].record.recordId)
    ensures h[i].record.revision == Revision(h, h[i].record.recordId) <==>
            i == LastIndex(h, h[i].record.recordId)
  {
    var k := LastIndex(h, h[i].record.recordId);
    assert AdmittedAt(h, i);
    assert i <= k;
    if i < k {
      RevisionsIncrease(h, i, k);
    }
  }

  /******* Growth *******/

  ghost predicate Extends(h: History, later: History) {
    |h| <= |later| && later[..|h|] == h
  }

  lemma ExtendsTransitive(a: History, b: History, c: History)
    requires Extends(a, b) && Extends(b, c)
    ensures Extends(a, c)
  {
    assert c[..|a|] == c[..|b|][..|a|];
  }

  /** Growth leaves a record alone or gives it a newer index and revision. */
  lemma ExtendsLastIndex(h: History, later: History, r: RecordId)
    requires Extends(h, later)
    ensures LastIndex(later, r) == LastIndex(h, r) || LastIndex(later, r) >= |h|
    ensures Valid(later) ==> Revision(h, r) <= Revision(later, r)
  {
    var k := LastIndex(later, r);
    if k < |h| {
      assert forall j :: 0 <= j < |h| ==> h[j] == later[j];
      if k >= 0 {
        LastIndexIs(h, r, k);
      }
    } else if Valid(later) && LastIndex(h, r) >= 0 {
      assert later[LastIndex(h, r)] == h[LastIndex(h, r)];
      RevisionIsHighest(later, LastIndex(h, r));
    }
  }

  lemma ExtendsIndexOfId(h: History, later: History, id: MutationId)
    requires Extends(h, later) && Valid(later)
    ensures IndexOfId(h, id) >= 0 ==> IndexOfId(later, id) == IndexOfId(h, id)
  {
    var i := IndexOfId(h, id);
    if i >= 0 {
      assert later[i] == h[i];
      var j := IndexOfId(later, id);
      if i < j {
        DistinctIds(later, i, j);
      }
    }
  }
}
