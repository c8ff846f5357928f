/** The journal store over a directory that it shares with others. */
module JournalStore {
  import opened SyncModel
  import opened JournalNames
  import opened Journal

  class Directory {
    var files: Files

    constructor (found: Files)
      ensures files == found
    {
      files := found;
    }

    /** The names, in no particular order. */
    method List() returns (names: seq<string>)
      ensures |names| == |files|
      ensures forall name :: name in names <==> name in files
    {
      names := [];
      var rest := files.Keys;
      while rest != {}
        invariant rest <= files.Keys && |names| + |rest| == |files|
        invariant forall name :: name in names <==> name in files && name !in rest
        decreases |rest|
      {
        var name :| name in rest;
        names := names + [name];
        rest := rest - {name};
      }
    }

    method Create(name: string, file: File, creation: Creation) returns (ok: bool)
      modifies this
      ensures ok == (name !in old(files) && creation.Created?)
      ensures files == if name in old(files) || creation.NothingCreated? then old(files)
                       else old(files)[name := if ok then file else Unreadable]
    {
      if name in files || creation.NothingCreated? {
        return false;
      }
      files := files[name := if creation.Created? then file else Unreadable];
      return creation.Created?;
    }

    method Move(source: string, destination: string, publication: Publication) returns (ok: bool)
      modifies this
      ensures ok == (source in old(files) && destination !in old(files) && publication.Published?)
      ensures files == if source !in old(files) || destination in old(files) || publication.NotMoved? then old(files)
                       else (old(files) - {source})[destination := old(files)[source]]
    {
      if source !in files || destination in files || publication.NotMoved? {
        return false;
      }
      files := (files - {source})[destination := files[source]];
      return publication.Published?;
    }
  }

  /** The last of the snapshot names, once they are filtered and sorted. */
  method LastEntry(names: seq<string>) returns (last: Option<string>)
    ensures last.None? <==> forall name <- names :: !IsEntry(name)
    ensures last.Some? ==> last.value in names && IsEntry(last.value)
    ensures last.Some? ==> forall name <- names :: IsEntry(name) ==> !Less(last.value, name)
  {
    last := None;
    for k := 0 to |names|
      invariant last.None? <==> forall j :: 0 <= j < k ==> !IsEntry(names[j])
      invariant last.Some? ==> last.value in names && IsEntry(last.value)
      invariant last.Some? ==>
        forall j :: 0 <= j < k && IsEntry(names[j]) ==> NumberOf(names[j]) <= NumberOf(last.value)
    {
      if IsEntry(names[k]) {
        if last.Some? {
          NameOrderIsNumeric(last.value, names[k]);
        }
        if last.None? || Less(last.value, names[k]) {
          last := Some(names[k]);
        }
      }
    }
    if last.Some? {
      forall name | name in names && IsEntry(name)
        ensures !Less(last.value, name)
      {
        NameOrderIsNumeric(last.value, name);
      }
    }
  }

  class JournalStore {
    const directory: Directory
    var sequence: nat
    var publishedSequence: nat
    var vaultId: Option<string>
    var initialized: bool

    ghost function State(): Store
      reads this
    {
      Store(sequence, publishedSequence, vaultId, initialized)
    }

    constructor (shared: Directory)
      ensures directory == shared && State() == NEW_STORE
    {
      directory := shared;
      sequence, publishedSequence, vaultId, initialized := 0, 0, None, false;
    }

    /** The latest entry, and how many files there are. */
    method Entries() returns (last: Option<string>, count: nat)
      ensures last == Latest(directory.files) && count == |directory.files|
    {
      var names := directory.List();
      last := LastEntry(names);
      ghost var latest := Latest(directory.files);
      if last.Some? {
        assert IsEntryOf(directory.files, last.value);
        NameOrderIsNumeric(last.value, latest.value);
        NameOrderIsNumeric(latest.value, last.value);
      } else {
        assert forall name :: name in directory.files ==> name in names;
      }
      return last, |names|;
    }

    method Load(readable: bool) returns (answer: Result<Option<File>, LoadError>)
      modifies this
      ensures (State(), answer) == Journal.Load(old(State()), directory.files, readable)
    {
      var name, _ := Entries();
      sequence := if name.Some? then NumberOf(name.value) else 0;
      publishedSequence := sequence;
      var found: Option<File> := None;
      if name.Some? {
        var file := directory.files[name.value];
        if !readable || file.Unreadable? {
          return Err(LatestUnreadable);
        }
        found := Some(file);
      }
      initialized := true;
      vaultId := if found.Some? then Some(found.value.vaultId) else None;
      return Ok(found);
    }

    method Refusal(file: File) returns (error: Option<WriteError>)
      requires file.Snapshot?
      ensures error == Journal.Refusal(State(), directory.files, file.vaultId)
    {
      if !initialized {
        return Some(NotLoaded);
      }
      var latest, count := Entries();
      if count >= JOURNAL_LIMIT {
        return Some(JournalFull);
      }
      if (if latest.Some? then NumberOf(latest.value) else 0) != publishedSequence {
        return Some(ChangedExternally);
      }
      if vaultId.Some? && vaultId.value != file.vaultId {
        return Some(OtherVault);
      }
      if sequence >= LAST_NUMBER {
        return Some(SequenceExhausted);
      }
      return None;
    }

    method Write(file: File, creation: Creation, between: Option<Files>, publication: Publication)
      returns (error: Option<WriteError>)
      requires file.Snapshot?
      modifies this, directory
      ensures (State(), directory.files, error)
              == Journal.Write(old(State()), old(directory.files), file, creation, between, publication)
    {
      error := Refusal(file);
      if error.Some? {
        return;
      }
      hide Journal.Refusal;
      sequence := sequence + 1;
      var number := sequence;
      var name := EntryName(number);
      var temporary := name + ".pending";
      var ok := directory.Create(temporary, file, creation);
      if !ok {
        return Some(NotCreated);
      }
      if between.Some? {
        directory.files := between.value;
      }
      ok := directory.Move(temporary, name, publication);
      if !ok {
        return Some(NotPublished);
      }
      publishedSequence := number;
      vaultId := Some(file.vaultId);
      return None;
    }
  }
}
