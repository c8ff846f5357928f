/** One device of an account: its sync metadata, its document, and the steps of a sync.

  A `World` is the server's history together with what this device has durably stored.
  Everything outside the device is an oracle that the world carries: `net` lists, per
  request, what other devices commit before it and whether request and answer arrive;
  `disk` lists which durable writes succeed. A run that stops when an oracle is used up
  is a crash at that point, so the finite oracles cover every finite run.
 */
module SyncClient {
  import opened SyncModel
  import opened SyncHistory
  import opened SyncServer

  /******* Device state *******/

  /** A client seals a login under its own id; the server cannot see whether it does. */
  predicate Sealable(e: Envelope) {
    e.plaintext.Login? ==> e.plaintext.item.id == e.recordId
  }

  /** What a client sends. */
  predicate WellFormed(m: Mutation) {
    Validated(m) && Sealable(m.record)
  }

  datatype RecordState = RecordState(revision: nat, stamp: Option<Time>, tombstoned: bool)

  datatype Pending = Pending(mutation: Mutation, stamp: Option<Time>)

  datatype Metadata = Metadata(
    cursor: nat,
    records: map<RecordId, RecordState>,
    outbox: seq<Pending>,
    conflicts: seq<Envelope>)

  datatype NetEvent = NetEvent(others: seq<seq<Mutation>>, delivered: bool, answered: bool)

  datatype World = World(
    device: nat,
    history: History,
    saved: Metadata,
    sealed: Document,
    issued: nat,
    net: seq<NetEvent>,
    disk: seq<bool>)

  datatype SyncError =
    | NoAnswer
    | Refused(refusal: PushError)
    | Ahead(currentCursor: nat)
    | NotSaved
    | NotSealed
    | RevisionOverflow

  datatype End = Finished | Failed(error: SyncError)

  /******* Reading the document and the metadata *******/

  function FindItem(items: seq<Item>, id: RecordId): Option<Item> {
    if items == [] then None
    else if items[0].id == id then Some(items[0])
    else FindItem(items[1..], id)
  }

  function Without(items: seq<Item>, id: RecordId): seq<Item> {
    if items == [] then []
    else (if items[0].id == id then [] else [items[0]]) + Without(items[1..], id)
  }

  function WithItem(document: Document, item: Item): Document {
    Document(Without(document.items, item.id) + [item], Max(item.updatedAt, document.updatedAt))
  }

  function WithoutItem(document: Document, id: RecordId, deletedAt: Time): Document {
    Document(Without(document.items, id), Max(deletedAt, document.updatedAt))
  }

  /** The document once a remote version of a record is taken over. */
  function TakeOver(document: Document, e: Envelope): Document {
    match e.plaintext
    case Login(item) => WithItem(document, item)
    case Tombstone(deletedAt) => WithoutItem(document, e.recordId, deletedAt)
  }

  predicate PendingFor(m: Metadata, r: RecordId) {
    exists p <- m.outbox :: p.mutation.record.recordId == r
  }

  predicate HasLocalChange(document: Document, m: Metadata, r: RecordId) {
    var item := FindItem(document.items, r);
    if r !in m.records || m.records[r].tombstoned then item.Some?
    else item.None? || Some(item.value.updatedAt) != m.records[r].stamp
  }

  /** A remote version of such a record is stored as a conflict instead of being applied. */
  predicate Blocked(document: Document, m: Metadata, r: RecordId) {
    PendingFor(m, r) || HasLocalChange(document, m, r)
  }

  predicate ConflictStored(m: Metadata, r: RecordId, revision: nat) {
    exists e <- m.conflicts :: e.recordId == r && e.revision == revision
  }

  function KnownRevision(m: Metadata, r: RecordId): nat {
    if r in m.records then m.records[r].revision else 0
  }

  /** What the metadata records about a version of a record that the device has taken over. */
  function StateOf(e: Envelope): RecordState {
    match e.plaintext
    case Login(item) => RecordState(e.revision, Some(item.updatedAt), false)
    case Tombstone(_) => RecordState(e.revision, None, true)
  }

  /******* The network and the disk *******/

  function CommitAll(h: History, batches: seq<seq<Mutation>>): History
    decreases |batches|
  {
    if batches == [] then h else CommitAll(Commit(h, batches[0]), batches[1..])
  }

  /** What happens on the server before the next request of this device reaches it. */
  function Elsewhere(w: World): World
    requires w.net != []
  {
    w.(history := CommitAll(w.history, w.net[0].others), net := w.net[1..])
  }

  datatype PushAnswer = Accepted | Rejected(refusal: PushError) | Lost

  function HttpPush(w: World, m: Mutation): (r: (World, PushAnswer))
    ensures |r.0.net| == if w.net == [] then 0 else |w.net| - 1
    ensures w.net == [] ==> r.1.Lost?
  {
    if w.net == [] then (w, Lost)
    else
      var there := Elsewhere(w);
      if !w.net[0].delivered then (there, Lost)
      else
        match PushBatch(there.history, [m])
        case Err(e) => (there, if w.net[0].answered then Rejected(e) else Lost)
        case Ok((after, _)) => (there.(history := after), if w.net[0].answered then Accepted else Lost)
  }

  function HttpPull(w: World, cursor: nat): (r: (World, Option<Result<Page, PullError>>))
    ensures |r.0.net| == if w.net == [] then 0 else |w.net| - 1
    ensures w.net == [] ==> r.1.None?
  {
    if w.net == [] then (w, None)
    else
      var there := Elsewhere(w);
      if !w.net[0].delivered || !w.net[0].answered then (there, None)
      else (there, Some(PullPage(there.history, cursor, PULL_LIMIT)))
  }

  function Save(w: World, m: Metadata): (World, bool) {
    if w.disk == [] then (w, false)
    else (w.(saved := if w.disk[0] then m else w.saved, disk := w.disk[1..]), w.disk[0])
  }

  function Seal(w: World, document: Document): (World, bool) {
    if w.disk == [] then (w, false)
    else (w.(sealed := if w.disk[0] then document else w.sealed, disk := w.disk[1..]), w.disk[0])
  }

  /******* Draining the outbox *******/

  datatype Drained = Drained(world: World, meta: Metadata, pushed: nat, end: End)

  function Acknowledge(m: Metadata): Metadata
    requires m.outbox != []
  {
    var p := m.outbox[0];
    m.(records := m.records[p.mutation.record.recordId :=
                              RecordState(p.mutation.record.revision, p.stamp, p.stamp.None?)],
       outbox := m.outbox[1..])
  }

  function DrainOutbox(w: World, m: Metadata, pushed: nat): Drained
    decreases |w.net|
  {
    if m.outbox == [] then Drained(w, m, pushed, Finished)
    else
      var (asked, answer) := HttpPush(w, m.outbox[0].mutation);
      match answer
      case Lost => Drained(asked, m, pushed, Failed(NoAnswer))
      case Rejected(e) => Drained(asked, m, pushed, Failed(Refused(e)))
      case Accepted =>
        var acknowledged := Acknowledge(m);
        var (stored, ok) := Save(asked, acknowledged);
        if !ok then Drained(stored, acknowledged, pushed + 1, Failed(NotSaved))
        else DrainOutbox(stored, acknowledged, pushed + 1)
  }

  /******* Pulling *******/

  /** The working copies of a pull, and how many remote versions it has taken over. */
  datatype Local = Local(document: Document, meta: Metadata, applied: nat)

  function ApplyChange(l: Local, e: Envelope): Local {
    var r := e.recordId;
    if Blocked(l.document, l.meta, r) then
      if ConflictStored(l.meta, r, e.revision) then l
      else l.(meta := l.meta.(conflicts := l.meta.conflicts + [e]))
    else
      Local(TakeOver(l.document, e), l.meta.(records := l.meta.records[r := StateOf(e)]), l.applied + 1)
  }

  function ApplyChanges(l: Local, changes: seq<Change>): Local {
    if changes == [] then l
    else ApplyChange(ApplyChanges(l, changes[..|changes| - 1]), changes[|changes| - 1].record)
  }

  datatype Pulled = Pulled(world: World, document: Document, meta: Metadata, applied: nat, end: End)

  /** A page, saved with its cursor. */
  function TakePage(l: Local, page: Page): Local {
    var taken := ApplyChanges(l, page.changes);
    taken.(meta := taken.meta.(cursor := page.nextCursor))
  }

  datatype TurnEnd = Again | LastPage | Stopped(error: SyncError)

  /** One turn of the pull loop: ask for a page, take it, save it. A server that lost part of
      its history makes the device start over from cursor 0. */
  function PullTurn(w: World, l: Local): (r: (World, Local, TurnEnd))
    ensures r.2.Again? ==> |r.0.net| < |w.net|
  {
    var (asked, answer) := HttpPull(w, l.meta.cursor);
    match answer
    case None => (asked, l, Stopped(NoAnswer))
    case Some(Err(CursorAhead(current))) =>
      if l.meta.cursor == 0 then (asked, l, Stopped(Ahead(current)))
      else
        var rewound := l.(meta := l.meta.(cursor := 0));
        var (stored, ok) := Save(asked, rewound.meta);
        (stored, rewound, if ok then Again else Stopped(NotSaved))
    case Some(Ok(page)) =>
      var taken := TakePage(l, page);
      var (stored, ok) := Save(asked, taken.meta);
      (stored, taken, if !ok then Stopped(NotSaved) else if page.hasMore then Again else LastPage)
  }

  function PullFrom(w: World, l: Local): Pulled
    decreases |w.net|
  {
    var (stored, taken, turn) := PullTurn(w, l);
    match turn
    case Again => PullFrom(stored, taken)
    case LastPage => SealPulled(stored, taken)
    case Stopped(error) => Pulled(stored, taken.document, taken.meta, taken.applied, Failed(error))
  }

  /** After the last page the document is sealed, unless no remote version was taken over. */
  function SealPulled(w: World, l: Local): Pulled {
    if l.applied == 0 then Pulled(w, l.document, l.meta, l.applied, Finished)
    else
      var (sealed, ok) := Seal(w, l.document);
      Pulled(sealed, l.document, l.meta, l.applied, if ok then Finished else Failed(NotSealed))
  }

  function PullRemote(w: World, document: Document, m: Metadata): Pulled {
    PullFrom(w, Local(document, m, 0))
  }

  /******* Queueing local changes *******/

  predicate NeedsUpload(m: Metadata, item: Item) {
    item.id !in m.records || m.records[item.id].tombstoned || m.records[item.id].stamp != Some(item.updatedAt)
  }

  function QueuedIds(m: Metadata): set<RecordId> {
    set p <- m.outbox :: p.mutation.record.recordId
  }

  function LoginMutation(id: MutationId, base: nat, item: Item): Pending {
    Pending(Mutation(id, base, Envelope(item.id, base + 1, Login(item))), Some(item.updatedAt))
  }

  function DeletionMutation(id: MutationId, base: nat, r: RecordId, deletedAt: Time): Pending {
    Pending(Mutation(id, base, Envelope(r, base + 1, Tombstone(deletedAt))), None)
  }

  function QueueItems(m: Metadata, items: seq<Item>, device: nat, serial: nat): seq<Pending> {
    if items == [] then []
    else
      var before := QueueItems(m, items[..|items| - 1], device, serial);
      var item := items[|items| - 1];
      if item.id in QueuedIds(m) || !NeedsUpload(m, item) then before
      else before + [LoginMutation(MutationId(device, serial + |before|), KnownRevision(m, item.id), item)]
  }

  predicate NeedsDeletion(m: Metadata, document: Document, r: RecordId) {
    r in m.records && !m.records[r].tombstoned && FindItem(document.items, r).None?
  }

  function QueueDeletions(m: Metadata, document: Document, keys: seq<RecordId>, device: nat, serial: nat)
    : seq<Pending>
  {
    if keys == [] then []
    else
      var before := QueueDeletions(m, document, keys[..|keys| - 1], device, serial);
      var r := keys[|keys| - 1];
      var id := MutationId(device, serial + |before|);
      if r in QueuedIds(m) || !NeedsDeletion(m, document, r) then before
      else before + [DeletionMutation(id, KnownRevision(m, r), r, document.updatedAt)]
  }

  /** `keys` is the order in which the runtime enumerates `m.records`. */
  predicate Enumerates(keys: seq<RecordId>, m: Metadata) {
    && (forall r <- keys :: r in m.records)
    && (forall r <- m.records :: r in keys)
    && (forall i, j :: 0 <= i < j < |keys| ==> keys[i] != keys[j])
  }

  function NewMutations(m: Metadata, document: Document, keys: seq<RecordId>, device: nat, serial: nat): seq<Pending> {
    var uploads := QueueItems(m, document.items, device, serial);
    uploads + QueueDeletions(m, document, keys, device, serial + |uploads|)
  }

  function EnqueueLocalChanges(m: Metadata, document: Document, keys: seq<RecordId>, device: nat, serial: nat)
    : Metadata
  {
    m.(outbox := m.outbox + NewMutations(m, document, keys, device, serial))
  }

  /******* A sync *******/

  datatype SyncEnd = Completed | AwaitingResolution | Aborted(error: SyncError)

  datatype SyncOutcome = SyncOutcome(
    world: World,
    document: Document,
    pulled: nat,
    pushed: nat,
    conflicts: nat,
    end: SyncEnd)

  function AbortedSync(w: World, error: SyncError): SyncOutcome {
    SyncOutcome(w, w.sealed, 0, 0, 0, Aborted(error))
  }

  predicate IsStale(end: End) {
    end.Failed? && end.error.Refused? && end.error.refusal.RevisionConflict?
  }

  /** `keys` is the enumeration order that the queueing step meets. */
  function SyncNow(w: World, keys: seq<RecordId>): SyncOutcome {
    if w.saved.conflicts != [] then
      SyncOutcome(w, w.sealed, 0, 0, |w.saved.conflicts|, AwaitingResolution)
    else
      var drained := DrainOutbox(w, w.saved, 0);
      if IsStale(drained.end) then
        var pulled := PullRemote(drained.world, w.sealed, drained.meta);
        if pulled.end.Failed? then AbortedSync(pulled.world, pulled.end.error)
        else SyncOutcome(pulled.world, pulled.document, pulled.applied, 0, |pulled.meta.conflicts|, AwaitingResolution)
      else if drained.end.Failed? then AbortedSync(drained.world, drained.end.error)
      else
        var first := PullRemote(drained.world, w.sealed, drained.meta);
        if first.end.Failed? then AbortedSync(first.world, first.end.error)
        else if first.meta.conflicts != [] then
          SyncOutcome(first.world, first.document, first.applied, 0, |first.meta.conflicts|, AwaitingResolution)
        else UploadAndPull(first, drained.pushed, keys)
  }

  /** The second half of a sync, after a first pull that met no conflict. */
  function UploadAndPull(first: Pulled, replayed: nat, keys: seq<RecordId>): SyncOutcome {
    var (queued, error) := QueueAndSave(first.world, first.document, first.meta, keys);
    if error.Some? then AbortedSync(queued.0, error.value)
    else
      var drained := DrainOutbox(queued.0, queued.1, 0);
      if drained.end.Failed? then AbortedSync(drained.world, drained.end.error)
      else
        var second := PullRemote(drained.world, first.document, drained.meta);
        if second.end.Failed? then AbortedSync(second.world, second.end.error)
        else SyncOutcome(second.world, second.document, first.applied + second.applied,
                         replayed + drained.pushed, |second.meta.conflicts|, Completed)
  }

  /** Ids are drawn even when nothing is saved. An order that is not an enumeration of the
      records describes no run, and stops. */
  function QueueAndSave(w: World, document: Document, m: Metadata, keys: seq<RecordId>)
    : ((World, Metadata), Option<SyncError>)
  {
    var added := NewMutations(m, document, keys, w.device, w.issued);
    var queued := EnqueueLocalChanges(m, document, keys, w.device, w.issued);
    var drawn := w.(issued := w.issued + |added|);
    if !Enumerates(keys, m) then ((w, m), Some(NotSaved))
    else if exists p <- added :: p.mutation.record.revision > MAX_WIRE_BIGINT then
      ((drawn, queued), Some(RevisionOverflow))
    else
      var (stored, ok) := Save(drawn, queued);
      ((stored, queued), if ok then None else Some(NotSaved))
  }

  /******* Resolving a conflict *******/

  /** The numerically highest stored revision of a record, the first one if it is stored twice. */
  function LatestConflict(conflicts: seq<Envelope>, r: RecordId): Option<Envelope> {
    if conflicts == [] then None
    else
      var current := LatestConflict(conflicts[..|conflicts| - 1], r);
      var e := conflicts[|conflicts| - 1];
      if e.recordId == r && (current.None? || e.revision > current.value.revision) then Some(e) else current
  }

  function DropConflicts(conflicts: seq<Envelope>, r: RecordId): seq<Envelope> {
    if conflicts == [] then []
    else DropConflicts(conflicts[..|conflicts| - 1], r) +
         if conflicts[|conflicts| - 1].recordId == r then [] else [conflicts[|conflicts| - 1]]
  }

  function DropPending(outbox: seq<Pending>, r: RecordId): seq<Pending> {
    if outbox == [] then []
    else DropPending(outbox[..|outbox| - 1], r) +
         if outbox[|outbox| - 1].mutation.record.recordId == r then [] else [outbox[|outbox| - 1]]
  }

  datatype Resolution = KeepLocal | UseRemote

  datatype ResolveEnd = Resolved | ConflictNotFound | StaleConflict | ResolveFailed(error: SyncError) | RollbackFailed

  datatype Resolving = Resolving(world: World, document: Document, end: ResolveEnd)

  /** The metadata once the remote version is taken as the base of the record. */
  function Rebased(m: Metadata, remote: Envelope): Metadata {
    m.(records := m.records[remote.recordId := StateOf(remote)],
       outbox := DropPending(m.outbox, remote.recordId),
       conflicts := DropConflicts(m.conflicts, remote.recordId))
  }

  function LocalVersion(document: Document, r: RecordId, id: MutationId, base: nat, now: Time): Pending {
    match FindItem(document.items, r)
    case Some(item) => LoginMutation(id, base, item)
    case None => DeletionMutation(id, base, r, now)
  }

  function ResolveConflict(w: World, r: RecordId, remoteRevision: nat, resolution: Resolution, now: Time): Resolving {
    match LatestConflict(w.saved.conflicts, r)
    case None => Resolving(w, w.sealed, ConflictNotFound)
    case Some(remote) =>
      if remote.revision != remoteRevision then Resolving(w, w.sealed, StaleConflict)
      else
        match resolution
        case KeepLocal => ResolveKeepingLocal(w, remote, now)
        case UseRemote => ResolveUsingRemote(w, remote)
  }

  function ResolveKeepingLocal(w: World, remote: Envelope, now: Time): Resolving {
    if remote.revision + 1 > MAX_WIRE_BIGINT then Resolving(w, w.sealed, ResolveFailed(RevisionOverflow))
    else
      var added := LocalVersion(w.sealed, remote.recordId, MutationId(w.device, w.issued), remote.revision, now);
      var next := Rebased(w.saved, remote);
      var (stored, ok) := Save(w.(issued := w.issued + 1), next.(outbox := next.outbox + [added]));
      Resolving(stored, w.sealed, if ok then Resolved else ResolveFailed(NotSaved))
  }

  function ResolveUsingRemote(w: World, remote: Envelope): Resolving {
    var next := TakeOver(w.sealed, remote);
    var (sealed, ok) := Seal(w, next);
    if !ok then Resolving(sealed, w.sealed, ResolveFailed(NotSealed))
    else
      var (stored, saved) := Save(sealed, Rebased(w.saved, remote));
      if saved then Resolving(stored, next, Resolved)
      else
        var (restored, undone) := Seal(stored, w.sealed);
        Resolving(restored, w.sealed, if undone then ResolveFailed(NotSaved) else RollbackFailed)
  }
}
