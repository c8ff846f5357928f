/** The journal of encrypted snapshots: every write adds a file under a new number, and a load
  reads the file with the highest one.

  Other programs may change the directory at every point where a write waits, so a write is
  two steps, and what is found in between is arbitrary.
 */
module Journal {
  import opened SyncModel
  import opened JournalNames

  const JOURNAL_LIMIT := 2000

  /** `Unreadable` is a file that is too large, truncated, or not a valid envelope. */
  datatype File = Snapshot(vaultId: string, body: string) | Unreadable

  type Files = map<string, File>

  datatype Store = Store(sequence: nat, publishedSequence: nat, vaultId: Option<string>, initialized: bool)

  datatype LoadError = LatestUnreadable

  datatype WriteError =
    | NotLoaded
    | JournalFull
    | ChangedExternally
    | OtherVault
    | SequenceExhausted
    | NotCreated
    | NotPublished

  const NEW_STORE := Store(0, 0, None, false)

  ghost predicate IsEntryOf(files: Files, name: string) {
    name in files && IsEntry(name)
  }

  /** The last entry of the sorted directory. */
  ghost predicate IsLatest(files: Files, name: string) {
    IsEntryOf(files, name) && forall other :: IsEntryOf(files, other) ==> !Less(name, other)
  }

  ghost function Latest(files: Files): (r: Option<string>)
    ensures r.None? <==> forall name :: !IsEntryOf(files, name)
    ensures r.Some? ==> IsLatest(files, r.value)
  {
    if exists name :: IsEntryOf(files, name) then
      LatestExists(files);
      var name :| IsLatest(files, name);
      Some(name)
    else None
  }

  lemma {:induction false} HighestOf(names: set<string>, some: string) returns (best: string)
    requires some in names && IsEntry(some)
    ensures best in names && IsEntry(best)
    ensures forall other :: other in names && IsEntry(other) ==> NumberOf(other) <= NumberOf(best)
    decreases names
  {
    var above := set n | n in names && IsEntry(n) && NumberOf(n) > NumberOf(some);
    if above == {} {
      best := some;
      assert forall other :: other in names && IsEntry(other) ==> other !in above;
    } else {
      var next :| next in above;
      assert some !in above;
      best := HighestOf(above, next);
    }
  }

  lemma LatestExists(files: Files)
    requires exists name :: IsEntryOf(files, name)
    ensures exists name :: IsLatest(files, name)
  {
    var some :| IsEntryOf(files, some);
    var best := HighestOf(files.Keys, some);
    forall other | IsEntryOf(files, other)
      ensures !Less(best, other)
    {
      NameOrderIsNumeric(best, other);
    }
    assert IsLatest(files, best);
  }

  /** The number of the latest snapshot; 0 when there is none. */
  ghost function HighestNumber(files: Files): nat {
    match Latest(files)
    case Some(name) => NumberOf(name)
    case None => 0
  }

  /** The latest snapshot is the numerically highest one, and no other has its number. */
  lemma LatestIsHighest(files: Files, name: string)
    requires IsEntryOf(files, name)
    ensures Latest(files).Some? && NumberOf(name) <= HighestNumber(files)
    ensures NumberOf(name) == HighestNumber(files) <==> Latest(files) == Some(name)
  {
    NameOrderIsNumeric(Latest(files).value, name);
  }

  /******* Loading *******/

  ghost function Load(store: Store, files: Files, readable: bool): (Store, Result<Option<File>, LoadError>) {
    var number := HighestNumber(files);
    var seen := store.(sequence := number, publishedSequence := number);
    match Latest(files)
    case None => (seen.(initialized := true, vaultId := None), Ok(None))
    case Some(name) =>
      if !readable || files[name].Unreadable? then (seen, Err(LatestUnreadable))
      else (seen.(initialized := true, vaultId := Some(files[name].vaultId)), Ok(Some(files[name])))
  }

  /******* Writing *******/

  ghost function Refusal(store: Store, files: Files, vaultId: string): Option<WriteError> {
    if !store.initialized then Some(NotLoaded)
    else if |files| >= JOURNAL_LIMIT then Some(JournalFull)
    else if HighestNumber(files) != store.publishedSequence then Some(ChangedExternally)
    else if store.vaultId.Some? && store.vaultId.value != vaultId then Some(OtherVault)
    else if store.sequence >= LAST_NUMBER then Some(SequenceExhausted)
    else None
  }

  /** How creating the pending file ends: it may fail and leave part of the file behind. */
  datatype Creation = Created | NothingCreated | PartlyCreated

  /** The first step of a write that is not refused. A file is never created over another. */
  function Create(store: Store, files: Files, file: File, creation: Creation): (Store, Files, bool) {
    var next := store.(sequence := store.sequence + 1);
    var pending := PendingName(next.sequence);
    if pending in files || creation.NothingCreated? then (next, files, false)
    else if creation.PartlyCreated? then (next, files[pending := Unreadable], false)
    else (next, files[pending := file], true)
  }

  /** How publishing ends: the file may have been moved although a failure is reported. */
  datatype Publication = Published | MovedButFailed | NotMoved

  /** The second step. A file is never moved over another. */
  function Publish(store: Store, files: Files, vaultId: string, publication: Publication): (Store, Files, bool) {
    var destination := EntryName(store.sequence);
    var pending := PendingName(store.sequence);
    if pending !in files || destination in files || publication.NotMoved? then (store, files, false)
    else
      var moved := (files - {pending})[destination := files[pending]];
      if publication.MovedButFailed? then (store, moved, false)
      else (store.(publishedSequence := store.sequence, vaultId := Some(vaultId)), moved, true)
  }

  /** A whole write; `between` is the directory as others leave it while the write waits, if they
      touch it. */
  ghost function Write(
    store: Store, files: Files, file: File, creation: Creation, between: Option<Files>, publication: Publication)
    : (r: (Store, Files, Option<WriteError>))
    requires file.Snapshot?
  {
    var refusal := Refusal(store, files, file.vaultId);
    if refusal.Some? then (store, files, refusal)
    else
      var (numbered, created, ok) := Create(store, files, file, creation);
      if !ok then (numbered, created, Some(NotCreated))
      else
        var found := if between.Some? then between.value else created;
        var (published, moved, done) := Publish(numbered, found, file.vaultId, publication);
        (published, moved, if done then None else Some(NotPublished))
  }

  /******* No snapshot is overwritten or removed *******/

  /** Every snapshot of `files` is in `later` as it was. */
  ghost predicate SnapshotsKept(files: Files, later: Files) {
    forall name :: IsEntryOf(files, name) ==> name in later && later[name] == files[name]
  }

  lemma CreateKeeps(store: Store, files: Files, file: File, creation: Creation)
    requires store.sequence < LAST_NUMBER
    ensures var (numbered, created, ok) := Create(store, files, file, creation);
      SnapshotsKept(files, created) && Latest(created) == Latest(files)
  {
    EntryNameReads(store.sequence + 1);
    var created := Create(store, files, file, creation).1;
    assert forall name :: IsEntryOf(created, name) <==> IsEntryOf(files, name);
    SameEntriesSameLatest(files, created);
  }

  lemma SameEntriesSameLatest(a: Files, b: Files)
    requires forall name :: IsEntryOf(a, name) <==> IsEntryOf(b, name)
    ensures Latest(a) == Latest(b)
  {
    if Latest(a).Some? {
      assert IsEntryOf(b, Latest(a).value) && IsEntryOf(a, Latest(b).value);
      NameOrderIsNumeric(Latest(a).value, Latest(b).value);
      NameOrderIsNumeric(Latest(b).value, Latest(a).value);
    }
  }

  lemma PublishKeeps(store: Store, files: Files, vaultId: string, publication: Publication)
    requires store.sequence <= LAST_NUMBER
    ensures SnapshotsKept(files, Publish(store, files, vaultId, publication).1)
  {
    EntryNameReads(store.sequence);
  }

  /** The numbers a store has used are at or above the published one, and can be written down. */
  ghost predicate Sound(store: Store) {
    store.publishedSequence <= store.sequence <= LAST_NUMBER
  }

  lemma ScaledOrder(p: nat, x: nat, y: nat)
    requires x <= y
    ensures p * x <= p * y
  {
  }

  lemma {:induction false} ValueBelow(s: string, before: nat)
    requires AllDigits(s)
    ensures Value(s, before) < Pow10(|s|) * (before + 1)
  {
    if s != "" {
      var next := 10 * before + DigitValue(s[0]);
      ValueBelow(s[1..], next);
      ScaledOrder(Pow10(|s| - 1), next + 1, 10 * (before + 1));
      assert Pow10(|s|) == 10 * Pow10(|s| - 1);
      assert Pow10(|s| - 1) * (10 * (before + 1)) == Pow10(|s|) * (before + 1);
    } else {
      assert Pow10(0) == 1;
    }
  }

  lemma NumbersFit(name: string)
    requires IsEntry(name)
    ensures NumberOf(name) <= LAST_NUMBER
  {
    ValueBelow(name[6..18], 0);
    TwelveDigits();
  }

  lemma LoadSound(store: Store, files: Files, readable: bool)
    ensures Sound(Load(store, files, readable).0)
  {
    if Latest(files).Some? {
      NumbersFit(Latest(files).value);
    }
  }

  /** A load answers the numerically highest snapshot or fails; it never falls back to another. */
  lemma LoadReadsHighest(store: Store, files: Files, readable: bool)
    ensures var (after, answer) := Load(store, files, readable);
      && (answer == Ok(None) <==> forall name :: !IsEntryOf(files, name))
      && (answer.Ok? && answer.value.Some? ==>
            exists name :: IsEntryOf(files, name) && files[name] == answer.value.value
              && forall other :: IsEntryOf(files, other) ==> NumberOf(other) <= NumberOf(name))
      && (answer.Err? <==> exists name :: IsLatest(files, name) && (!readable || files[name].Unreadable?))
      && after.sequence == after.publishedSequence == HighestNumber(files)
  {
    forall name | IsLatest(files, name)
      ensures Latest(files) == Some(name)
    {
      NameOrderIsNumeric(name, Latest(files).value);
      NameOrderIsNumeric(Latest(files).value, name);
    }
    if Latest(files).Some? {
      forall other | IsEntryOf(files, other)
        ensures NumberOf(other) <= NumberOf(Latest(files).value)
      {
        LatestIsHighest(files, other);
      }
    }
  }

  /** A write, whatever fails in it and whatever others do meanwhile, leaves every snapshot that it
      finds as it was: what it found at the start, unless others changed it, and what it found
      when it published. A refused write touches nothing. */
  lemma WriteNeverOverwrites(
    store: Store, files: Files, file: File, creation: Creation, between: Option<Files>, publication: Publication)
    requires file.Snapshot? && Sound(store)
    ensures var (after, later, error) := Write(store, files, file, creation, between, publication);
      && Sound(after)
      && (between.None? ==> SnapshotsKept(files, later))
      && (between.Some? ==> SnapshotsKept(files, later) || SnapshotsKept(between.value, later))
      && (Refusal(store, files, file.vaultId).Some? ==> after == store && later == files && error.Some?)
  {
    if Refusal(store, files, file.vaultId).None? {
      var (numbered, created, ok) := Create(store, files, file, creation);
      CreateKeeps(store, files, file, creation);
      PublishKeeps(numbered, if between.Some? then between.value else created, file.vaultId, publication);
    }
  }

  /** A snapshot that was written has a number above all that were there when the write began,
      and above every number that the store used before. */
  lemma WriteTakesNewNumber(
    store: Store, files: Files, file: File, creation: Creation, between: Option<Files>, publication: Publication)
    requires file.Snapshot? && Sound(store)
    ensures var (after, later, error) := Write(store, files, file, creation, between, publication);
      error.None? ==>
        && after.publishedSequence == after.sequence == store.sequence + 1
        && IsEntryOf(later, EntryName(after.sequence)) && NumberOf(EntryName(after.sequence)) == after.sequence
        && (between.None? ==> later[EntryName(after.sequence)] == file)
        && forall name :: IsEntryOf(files, name) ==> NumberOf(name) < after.sequence
  {
    var (after, later, error) := Write(store, files, file, creation, between, publication);
    if error.None? {
      EntryNameReads(store.sequence + 1);
      forall name | IsEntryOf(files, name)
        ensures NumberOf(name) < after.sequence
      {
        LatestIsHighest(files, name);
      }
    }
  }

  /** The highest number is `n`; 0 stands for an empty journal as well. */
  ghost predicate HighestIs(files: Files, n: nat) {
    && (forall name :: IsEntryOf(files, name) ==> NumberOf(name) <= n)
    && (n == 0 || exists name :: IsEntryOf(files, name) && NumberOf(name) == n)
  }

  /** A write is refused as changed externally exactly when the highest number is not the one that
      the store last loaded or published. */
  lemma ForeignChangesAreRefused(store: Store, files: Files, vaultId: string)
    requires store.initialized && |files| < JOURNAL_LIMIT
    ensures Refusal(store, files, vaultId) == Some(ChangedExternally) <==> !HighestIs(files, store.publishedSequence)
  {
    forall name | IsEntryOf(files, name)
      ensures NumberOf(name) <= HighestNumber(files)
    {
      LatestIsHighest(files, name);
    }
  }

  /** What a load answers after a write that nobody disturbed: the new snapshot if it was moved,
      and otherwise what it would have answered before. */
  lemma WriteThenLoad(store: Store, files: Files, file: File, creation: Creation, publication: Publication)
    requires file.Snapshot? && Sound(store) && Refusal(store, files, file.vaultId).None?
    ensures var (after, later, error) := Write(store, files, file, creation, None, publication);
      && (error.None? ==> Load(after, later, true).1 == Ok(Some(file)))
      && (error == Some(NotPublished) && publication.MovedButFailed? && EntryName(store.sequence + 1) !in files ==>
            Load(after, later, true).1 == Ok(Some(file)) && Refusal(after, later, file.vaultId).Some?)
      && (error.Some? && !publication.MovedButFailed? ==>
            forall readable :: Load(after, later, readable).1 == Load(store, files, readable).1)
  {
    var (numbered, created, ok) := Create(store, files, file, creation);
    CreateKeeps(store, files, file, creation);
    EntryNameReads(numbered.sequence);
    if ok && EntryName(numbered.sequence) !in created && !publication.NotMoved? {
      var moved := Publish(numbered, created, file.vaultId, publication).1;
      NewEntryIsLatest(files, moved, EntryName(numbered.sequence));
    }
  }

  /** What follows a failed load: every write is refused if no load has ever succeeded, and
      otherwise an undisturbed one goes through exactly if nothing else refuses it. The store then
      covers a snapshot that it could not read, and the next load answers the new one. */
  lemma WriteAfterFailedLoad(store: Store, files: Files, readable: bool, file: File)
    requires file.Snapshot? && Load(store, files, readable).1.Err?
    ensures var (after, later, error) := Write(Load(store, files, readable).0, files, file, Created, None, Published);
      && (error.None? <==>
            && store.initialized
            && |files| < JOURNAL_LIMIT
            && (store.vaultId.None? || store.vaultId.value == file.vaultId)
            && HighestNumber(files) < LAST_NUMBER
            && PendingName(HighestNumber(files) + 1) !in files)
      && (error.None? ==> SnapshotsKept(files, later) && Load(after, later, true).1 == Ok(Some(file)))
    ensures forall later: Files, vaultId: string ::
      Refusal(Load(store, files, readable).0, later, vaultId) == Some(NotLoaded) <==> !store.initialized
  {
    var seen := Load(store, files, readable).0;
    var number := HighestNumber(files) + 1;
    LoadSound(store, files, readable);
    if number <= LAST_NUMBER {
      EntryNameReads(number);
      if EntryName(number) in files {
        LatestIsHighest(files, EntryName(number));
      }
      assert Refusal(seen, files, file.vaultId).None? ==> seen.sequence == HighestNumber(files);
    }
    if Refusal(seen, files, file.vaultId).None? {
      WriteThenLoad(seen, files, file, Created, Published);
      WriteNeverOverwrites(seen, files, file, Created, None, Published);
    }
  }

  lemma NewEntryIsLatest(files: Files, moved: Files, name: string)
    requires IsEntryOf(moved, name) && HighestNumber(files) < NumberOf(name)
    requires forall other :: IsEntryOf(moved, other) ==> other == name || IsEntryOf(files, other)
    ensures Latest(moved) == Some(name)
  {
    var latest := Latest(moved).value;
    if latest != name {
      LatestIsHighest(files, latest);
      NameOrderIsNumeric(latest, name);
    }
  }

  /******* Runs *******/

  datatype Event =
    | Others(files: Files)
    | LoadNow(readable: bool)
    | WriteNow(file: File, creation: Creation, between: Option<Files>, publication: Publication)

  ghost function Step(s: (Store, Files), e: Event): (Store, Files) {
    match e
    case Others(files) => (s.0, files)
    case LoadNow(readable) => (Load(s.0, s.1, readable).0, s.1)
    case WriteNow(file, creation, between, publication) =>
      if file.Unreadable? then s
      else
        var (after, later, _) := Write(s.0, s.1, file, creation, between, publication);
        (after, later)
  }

  ghost function Run(s: (Store, Files), events: seq<Event>): (Store, Files) {
    if events == [] then s else Step(Run(s, events[..|events| - 1]), events[|events| - 1])
  }

  /** Others only add files: what was there stays. */
  ghost predicate OnlyAdds(s: (Store, Files), e: Event) {
    match e
    case Others(files) => SnapshotsKept(s.1, files)
    case LoadNow(_) => true
    case WriteNow(file, creation, between, _) => between.Some? ==> SnapshotsKept(s.1, between.value)
  }

  ghost predicate OnlyAddsAlong(s: (Store, Files), events: seq<Event>) {
    forall k :: 0 <= k < |events| ==> OnlyAdds(Run(s, events[..k]), events[k])
  }

  lemma {:induction false} RunSound(s: (Store, Files), events: seq<Event>)
    requires Sound(s.0)
    ensures Sound(Run(s, events).0)
  {
    if events != [] {
      var before := Run(s, events[..|events| - 1]);
      RunSound(s, events[..|events| - 1]);
      match events[|events| - 1]
      case Others(_) =>
      case LoadNow(readable) => LoadSound(before.0, before.1, readable);
      case WriteNow(file, creation, between, publication) =>
        if file.Snapshot? {
          WriteNeverOverwrites(before.0, before.1, file, creation, between, publication);
        }
    }
  }

  /** Over every run of loads and writes, failing wherever they fail, beside others that only add
      files: no snapshot is ever overwritten or removed. */
  lemma {:induction false} RunKeepsSnapshots(s: (Store, Files), events: seq<Event>)
    requires Sound(s.0) && OnlyAddsAlong(s, events)
    ensures SnapshotsKept(s.1, Run(s, events).1)
  {
    if events != [] {
      var n := |events| - 1;
      var before := Run(s, events[..n]);
      forall k | 0 <= k < n
        ensures OnlyAdds(Run(s, events[..n][..k]), events[..n][k])
      {
        assert events[..n][..k] == events[..k];
      }
      RunKeepsSnapshots(s, events[..n]);
      RunSound(s, events[..n]);
      assert OnlyAdds(before, events[n]);
      if events[n].WriteNow? && events[n].file.Snapshot? {
        var e := events[n];
        WriteNeverOverwrites(before.0, before.1, e.file, e.creation, e.between, e.publication);
      }
      assert SnapshotsKept(before.1, Run(s, events).1);
    }
  }

  /** Only snapshots of this vault are written, whatever happens. */
  ghost predicate WritesOnly(s: (Store, Files), vaultId: string) {
    forall file: File, creation: Creation, between: Option<Files>, publication: Publication ::
      file.Snapshot? && file.vaultId != vaultId ==>
      Write(s.0, s.1, file, creation, between, publication).2.Some?
  }

  /** Once a store has seen a vault, every snapshot it writes until it loads again is of that vault. */
  lemma {:induction false} RunKeepsVault(s: (Store, Files), events: seq<Event>)
    requires s.0.vaultId.Some? && forall e <- events :: !e.LoadNow?
    ensures Run(s, events).0.vaultId == s.0.vaultId
    ensures WritesOnly(Run(s, events), s.0.vaultId.value)
  {
    if events != [] {
      var before := events[..|events| - 1];
      assert forall e :: e in before ==> e in events;
      RunKeepsVault(s, before);
    }
  }

  /** What a load leaves the store with: the vault that it read, and no other may be written; any
      vault if there was none; and what it knew before if it failed. */
  lemma LoadFixesVault(store: Store, files: Files, readable: bool)
    ensures var (after, answer) := Load(store, files, readable);
      && (answer.Ok? ==> after.initialized)
      && (answer.Ok? && answer.value.Some? ==>
            && answer.value.value.Snapshot?
            && forall later: Files :: WritesOnly((after, later), answer.value.value.vaultId)
                 && OthersAreRefused(after, later, answer.value.value.vaultId))
      && (answer == Ok(None) ==>
            forall later: Files, vaultId: string :: Refusal(after, later, vaultId) != Some(OtherVault))
      && (answer.Err? ==> after.initialized == store.initialized && after.vaultId == store.vaultId)
  {
    var (after, answer) := Load(store, files, readable);
    if answer.Ok? && answer.value.Some? {
      forall later: Files
        ensures WritesOnly((after, later), answer.value.value.vaultId)
        ensures OthersAreRefused(after, later, answer.value.value.vaultId)
      {
        assert after.initialized && after.vaultId == Some(answer.value.value.vaultId);
        HighestIsOne(later, after.publishedSequence);
      }
    }
  }

  /** Unless the directory is full or changed, a write of another vault is refused as such. */
  ghost predicate OthersAreRefused(store: Store, files: Files, vaultId: string) {
    forall other :: Refusal(store, files, other) == Some(OtherVault) <==>
      other != vaultId && |files| < JOURNAL_LIMIT && HighestIs(files, store.publishedSequence)
  }

  lemma HighestIsOne(files: Files, n: nat)
    ensures HighestIs(files, n) <==> HighestNumber(files) == n
  {
    forall name | IsEntryOf(files, name)
      ensures NumberOf(name) <= HighestNumber(files)
    {
      LatestIsHighest(files, name);
    }
  }

  /** From a load that read a vault on, whatever is written until the next load is of that vault. */
  lemma LoadedVaultIsKept(store: Store, files: Files, readable: bool, events: seq<Event>)
    requires forall e <- events :: !e.LoadNow?
    ensures var (after, answer) := Load(store, files, readable);
      answer.Ok? && answer.value.Some? ==> WritesOnly(Run((after, files), events), answer.value.value.vaultId)
  {
    var (after, answer) := Load(store, files, readable);
    if answer.Ok? && answer.value.Some? {
      RunKeepsVault((after, files), events);
    }
  }

  /** A write that nobody disturbs goes through exactly if the store has loaded, the journal is not
      full, nothing was published by others, the vault is the one known, and the next number is
      free. It adds the snapshot and changes no other file, and fixes the vault. */
  lemma UndisturbedWriteExactly(store: Store, files: Files, file: File)
    requires file.Snapshot? && Sound(store)
    ensures var (after, later, error) := Write(store, files, file, Created, None, Published);
      && (error.None? <==>
            && store.initialized && |files| < JOURNAL_LIMIT && HighestIs(files, store.publishedSequence)
            && (store.vaultId.None? || store.vaultId.value == file.vaultId)
            && store.sequence < LAST_NUMBER
            && PendingName(store.sequence + 1) !in files && EntryName(store.sequence + 1) !in files)
      && (error.None? ==>
            && later == files[EntryName(store.sequence + 1) := file]
            && after == Store(store.sequence + 1, store.sequence + 1, Some(file.vaultId), true))
  {
    HighestIsOne(files, store.publishedSequence);
    if store.sequence < LAST_NUMBER {
      EntryNameReads(store.sequence + 1);
      var pending, name := PendingName(store.sequence + 1), EntryName(store.sequence + 1);
      if pending !in files {
        assert files[pending := file] - {pending} == files;
      }
    }
  }

  /** A write that fails on the way has used its number up, and knows nothing new. */
  lemma FailedWriteCounts(
    store: Store, files: Files, file: File, creation: Creation, between: Option<Files>, publication: Publication)
    requires file.Snapshot? && Refusal(store, files, file.vaultId).None?
    ensures var (after, later, error) := Write(store, files, file, creation, between, publication);
      && after.sequence == store.sequence + 1
      && (error.Some? ==> after == store.(sequence := store.sequence + 1))
  {
  }

  const NEW_SNAPSHOT := Snapshot("vault", "new")

  lemma RunOneMore(s: (Store, Files), events: seq<Event>, n: nat)
    requires n < |events|
    ensures Run(s, events[..n + 1]) == Step(Run(s, events[..n]), events[n])
  {
    assert events[..n + 1][..n] == events[..n];
  }

  lemma OnlyEntryIsHighest(files: Files, name: string)
    requires IsEntry(name) && files.Keys == {name}
    ensures Latest(files) == Some(name) && HighestNumber(files) == NumberOf(name)
  {
    assert IsEntryOf(files, name);
    assert Latest(files).value in files.Keys;
  }

  /** A store loads, another program leaves an unreadable snapshot, and a second load reports it. */
  lemma UnreadableIsReported(files: Files)
    requires files == map[EntryName(1) := Unreadable]
    ensures IsEntryOf(files, EntryName(1)) && HighestNumber(files) == 1
    ensures Load(Store(0, 0, None, true), files, true) == (Store(1, 1, None, true), Err(LatestUnreadable))
    ensures Run((NEW_STORE, map[]), [LoadNow(true), Others(files), LoadNow(true)]) == (Store(1, 1, None, true), files)
  {
    EntryNameReads(1);
    OnlyEntryIsHighest(files, EntryName(1));
    var start, events := (NEW_STORE, map[]), [LoadNow(true), Others(files), LoadNow(true)];
    assert events[..0] == [] && events[..3] == events;
    RunOneMore(start, events, 0);
    RunOneMore(start, events, 1);
    RunOneMore(start, events, 2);
    assert Run(start, events[..1]) == (Store(0, 0, None, true), map[]);
  }

  /** The write that follows covers it, and the next load answers the new snapshot as if nothing
      had happened. */
  lemma UnreadableIsCovered(files: Files)
    requires files == map[EntryName(1) := Unreadable]
    ensures var s := Run((NEW_STORE, map[]), [LoadNow(true), Others(files), LoadNow(true)]);
      var (after, later, error) := Write(s.0, s.1, NEW_SNAPSHOT, Created, None, Published);
      && Load(Store(0, 0, None, true), files, true).1 == Err(LatestUnreadable)
      && error.None? && SnapshotsKept(files, later)
      && Load(after, later, true).1 == Ok(Some(NEW_SNAPSHOT))
  {
    UnreadableIsReported(files);
    EntryNameReads(2);
    hide Load, Write, Run;
    WriteAfterFailedLoad(Store(0, 0, None, true), files, true, NEW_SNAPSHOT);
  }
}
