/** How the document operations of a sync change what is found under each id. */
module SyncDocuments {
  import opened SyncModel
  import opened SyncClient

  ghost predicate UniqueIds(items: seq<Item>) {
    forall i, j :: 0 <= i < j < |items| ==> items[i].id != items[j].id
  }

  lemma {:induction false} FindSound(items: seq<Item>, id: RecordId)
    ensures var found := FindItem(items, id);
      && (found.Some? ==> found.value in items && found.value.id == id)
      && (found.None? ==> forall item <- items :: item.id != id)
  {
    if items != [] && items[0].id != id {
      FindSound(items[1..], id);
      assert forall item :: item in items ==> item == items[0] || item in items[1..];
    }
  }

  lemma FindUnique(items: seq<Item>, item: Item)
    requires UniqueIds(items) && item in items
    ensures FindItem(items, item.id) == Some(item)
  {
    FindSound(items, item.id);
  }

  lemma {:induction false} FindWithout(items: seq<Item>, id: RecordId, other: RecordId)
    ensures FindItem(Without(items, id), other) == if other == id then None else FindItem(items, other)
  {
    if items != [] {
      FindWithout(items[1..], id, other);
      var rest := Without(items[1..], id);
      if items[0].id == id {
        assert Without(items, id) == rest;
      } else {
        assert Without(items, id) == [items[0]] + rest;
        assert Without(items, id)[1..] == rest;
      }
    }
  }

  lemma {:induction false} FindAppend(items: seq<Item>, item: Item, id: RecordId)
    ensures FindItem(items + [item], id) ==
            if FindItem(items, id).Some? then FindItem(items, id)
            else if item.id == id then Some(item) else None
  {
    if items != [] {
      FindAppend(items[1..], item, id);
      assert (items + [item])[1..] == items[1..] + [item];
    } else {
      assert (items + [item])[0] == item;
      assert (items + [item])[1..] == [];
    }
  }

  lemma {:induction false} WithoutKeeps(items: seq<Item>, id: RecordId)
    ensures forall item <- Without(items, id) :: item in items && item.id != id
    ensures UniqueIds(items) ==> UniqueIds(Without(items, id))
  {
    if items != [] {
      WithoutKeeps(items[1..], id);
      assert forall item :: item in items[1..] ==> item in items;
      if UniqueIds(items) && items[0].id != id {
        var rest := Without(items[1..], id);
        assert Without(items, id) == [items[0]] + rest;
        forall item | item in rest
          ensures item.id != items[0].id
        {
        }
      }
    }
  }

  /** Taking a version over changes what is found under its own id, and nothing else. */
  lemma FindTakeOver(document: Document, e: Envelope, id: RecordId)
    requires e.plaintext.Login? ==> e.plaintext.item.id == e.recordId
    ensures FindItem(TakeOver(document, e).items, id) ==
            if id != e.recordId then FindItem(document.items, id)
            else if e.plaintext.Login? then Some(e.plaintext.item) else None
  {
    FindWithout(document.items, e.recordId, id);
    if e.plaintext.Login? {
      FindAppend(Without(document.items, e.recordId), e.plaintext.item, id);
    }
  }

  lemma TakeOverUnique(document: Document, e: Envelope)
    requires UniqueIds(document.items)
    requires e.plaintext.Login? ==> e.plaintext.item.id == e.recordId
    ensures UniqueIds(TakeOver(document, e).items)
  {
    WithoutKeeps(document.items, e.recordId);
  }

  lemma {:induction false} WithoutTwice(items: seq<Item>, id: RecordId)
    ensures Without(Without(items, id), id) == Without(items, id)
  {
    if items != [] {
      WithoutTwice(items[1..], id);
      var rest := Without(items[1..], id);
      if items[0].id == id {
        assert Without(items, id) == rest;
      } else {
        assert Without(items, id) == [items[0]] + rest && Without(items, id)[1..] == rest;
      }
    }
  }

  lemma {:induction false} WithoutAppended(items: seq<Item>, item: Item)
    ensures Without(items + [item], item.id) == Without(items, item.id)
  {
    if items == [] {
      assert (items + [item])[1..] == [];
    } else {
      WithoutAppended(items[1..], item);
      assert (items + [item])[1..] == items[1..] + [item];
    }
  }

  /** A login that is taken over comes last; everything else stays as it was, and in its order. */
  lemma TakeOverLeavesRest(document: Document, e: Envelope)
    requires e.plaintext.Login? ==> e.plaintext.item.id == e.recordId
    ensures Without(TakeOver(document, e).items, e.recordId) == Without(document.items, e.recordId)
    ensures var items := TakeOver(document, e).items;
      e.plaintext.Login? ==> items != [] && items[|items| - 1] == e.plaintext.item
  {
    WithoutTwice(document.items, e.recordId);
    if e.plaintext.Login? {
      WithoutAppended(Without(document.items, e.recordId), e.plaintext.item);
    }
  }

  /** Taking a version over a second time changes nothing. */
  lemma TakeOverTwice(document: Document, e: Envelope)
    ensures TakeOver(TakeOver(document, e), e) == TakeOver(document, e)
  {
    var id := if e.plaintext.Login? then e.plaintext.item.id else e.recordId;
    WithoutTwice(document.items, id);
    if e.plaintext.Login? {
      WithoutAppended(Without(document.items, id), e.plaintext.item);
    }
  }

  function TimeOf(e: Envelope): Time {
    match e.plaintext case Login(item) => item.updatedAt case Tombstone(at) => at
  }
}
