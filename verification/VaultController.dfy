/** The mobile vault controller as the program keeps it: fields that its methods update, one
  method for each stretch of code between two awaits.
 */
module VaultController {
  import opened SyncModel
  import opened VaultControl

  class Controller {
    var loading: bool
    var epoch: nat
    var stateVersion: nat
    var active: bool
    var envelope: Option<Document>
    var session: Option<SessionId>
    var owned: map<SessionId, Document>
    var pending: map<CallId, Option<Document>>
    var shown: Shown
    var calls: map<CallId, Call>
    var nextId: nat
    ghost var durable: seq<Document>
    ghost var strayed: Option<Document>

    ghost function View(): Control
      reads this
    {
      Control(loading, epoch, stateVersion, active, envelope, session, owned, pending, shown, calls, nextId,
              durable, strayed)
    }

    constructor (ghost published: seq<Document>)
      ensures View() == Started(published)
    {
      loading, epoch, stateVersion, active, envelope, session := true, 0, 0, true, None, None;
      owned, pending, calls, nextId := map[], map[], map[], 0;
      shown := Shown(false, false, false, false, []);
      durable, strayed := published, None;
    }

    method Update(next: Shown)
      modifies this`stateVersion, this`shown
      ensures View() == VaultControl.Update(old(View()), next)
    {
      stateVersion := stateVersion + 1;
      shown := next;
    }

    method Discard(s: SessionId)
      modifies this`owned
      ensures View() == VaultControl.Discard(old(View()), s)
    {
      owned := owned - {s};
    }

    /** `found` is what the store reads, the newest vault that it has published. */
    method LoadReturns(ok: bool, found: Option<Document>)
      requires ok ==> found == Newest(durable)
      modifies this
      ensures View() == VaultControl.LoadReturns(old(View()), ok)
    {
      loading := false;
      if !ok {
        Update(shown.(ready := false));
        return;
      }
      envelope := found;
      Update(shown.(ready := true, hasVault := envelope.Some?));
    }

    method SetActive(next: bool)
      modifies this
      ensures View() == VaultControl.SetActive(old(View()), next)
    {
      active := next;
      if !next {
        Lock();
      }
    }

    method Lock()
      modifies this
      ensures View() == VaultControl.Lock(old(View()))
    {
      hide Forgotten;
      epoch := epoch + 1;
      session := None;
      DiscardAll();
      ForgetDrafts();
      Update(shown.(unlocked := false, items := []));
    }

    method DiscardAll()
      modifies this`owned
      ensures owned == map[]
    {
      while owned != map[]
        decreases |owned|
      {
        var s :| s in owned;
        Discard(s);
      }
    }

    method ForgetDrafts()
      modifies this`pending
      ensures pending == Forgotten(old(pending))
    {
      var rest := pending.Keys;
      while rest != {}
        invariant rest <= old(pending).Keys && pending.Keys == old(pending).Keys
        invariant forall id <- pending :: id !in rest ==> pending[id].None?
        decreases |rest|
      {
        var id :| id in rest;
        pending := pending[id := None];
        rest := rest - {id};
      }
    }

    method Authenticate(create: bool)
      modifies this
      ensures View() == VaultControl.Authenticate(old(View()), create)
    {
      if !active || !shown.ready || shown.busy || shown.unlocked {
        return;
      }
      if create == shown.hasVault {
        Update(shown);
        return;
      }
      Update(shown.(busy := true));
      calls := calls[nextId := Yielding(epoch, create)];
      nextId := nextId + 1;
    }

    method Finish(id: CallId)
      modifies this
      ensures View() == VaultControl.Finish(old(View()), id)
    {
      calls := calls - {id};
      pending := pending - {id};
      Update(shown.(busy := false));
    }

    method Fail(id: CallId, begun: nat)
      modifies this
      ensures View() == VaultControl.Fail(old(View()), id, begun)
    {
      if begun == epoch {
        Update(shown);
      }
      Finish(id);
    }

    method Open(id: CallId, begun: nat, s: SessionId)
      modifies this
      ensures View() == VaultControl.Open(old(View()), id, begun, s)
    {
      if !active || begun != epoch {
        Discard(s);
      } else {
        session := Some(s);
        Update(shown.(unlocked := true, items := if s in owned then owned[s].items else []));
      }
      Finish(id);
    }

    method AfterYield(id: CallId, works: bool, now: Time)
      requires id in calls && calls[id].Yielding?
      modifies this
      ensures View() == VaultControl.AfterYield(old(View()), id, works, now)
    {
      var call := calls[id];
      if !active || call.epoch != epoch {
        Finish(id);
        return;
      }
      if !works || (!call.create && envelope.None?) {
        Fail(id, call.epoch);
        return;
      }
      var s := nextId;
      nextId := nextId + 1;
      if call.create {
        var document := Document([], now);
        owned := owned[s := document];
        calls := calls[id := Creating(call.epoch, s, document, false)];
      } else {
        owned := owned[s := envelope.value];
        Open(id, call.epoch, s);
      }
    }

    /** The draft and the write that waits for the store. */
    method StartWriting(id: CallId, document: Document)
      requires session.Some?
      modifies this`pending, this`calls
      ensures pending == old(pending)[id := Some(document)]
      ensures calls == old(calls)[id := Changing(epoch, session.value, document, false)]
    {
      pending := pending[id := Some(document)];
      calls := calls[id := Changing(epoch, session.value, document, false)];
    }

    /** The id of the call, a draft that holds nothing yet, and the busy flag. */
    method Busy() returns (id: CallId)
      modifies this`nextId, this`pending, this`shown, this`stateVersion
      ensures id == old(nextId)
      ensures View() == VaultControl.Busy(old(View()))
    {
      id := nextId;
      nextId := id + 1;
      pending := pending[id := None];
      Update(shown.(busy := true));
    }

    method Mutate(change: Change, now: Time, works: bool) returns (answer: Option<bool>)
      modifies this
      ensures (View(), answer) == VaultControl.Mutate(old(View()), change, now, works)
    {
      hide VaultControl.Fail, VaultControl.Finish, Changed;
      if !active || session.None? || envelope.None? || shown.busy {
        return Some(false);
      }
      var id := Busy();
      var items := Changed(if session.value in owned then owned[session.value].items else [], change);
      if items.None? || !works {
        Fail(id, epoch);
        return Some(false);
      }
      StartWriting(id, Document(items.value, now));
      return None;
    }

    /** The store's part of a write. */
    method WriteLands(id: CallId)
      requires Writing(View(), id) && !calls[id].landed
      modifies this`durable, this`calls
      ensures View() == VaultControl.WriteLands(old(View()), id)
    {
      durable := durable + [calls[id].written];
      calls := calls[id := calls[id].(landed := true)];
    }

    method AfterCreation(id: CallId, ok: bool)
      requires Writing(View(), id) && calls[id].Creating? && (ok ==> calls[id].landed)
      modifies this
      ensures View() == VaultControl.AfterWrite(old(View()), id, ok).0
    {
      hide VaultControl.Open, VaultControl.Fail, VaultControl.Finish;
      var call := calls[id];
      strayed := if ok then None else if call.landed then Some(call.written) else strayed;
      if !ok {
        Discard(call.session);
        Fail(id, call.epoch);
        return;
      }
      envelope := Some(call.written);
      Update(shown.(hasVault := true));
      Open(id, call.epoch, call.session);
    }

    method AfterChange(id: CallId, ok: bool) returns (answer: bool)
      requires Writing(View(), id) && calls[id].Changing? && (ok ==> calls[id].landed)
      modifies this
      ensures (View(), answer) == VaultControl.AfterWrite(old(View()), id, ok)
    {
      hide VaultControl.Open, VaultControl.Fail, VaultControl.Finish;
      var call := calls[id];
      strayed := if ok then None else if call.landed then Some(call.written) else strayed;
      if !ok {
        Fail(id, call.epoch);
        return false;
      }
      envelope := Some(call.written);
      if call.epoch != epoch || !active || id !in pending || pending[id].None? {
        Finish(id);
        return false;
      }
      owned := owned[call.session := pending[id].value];
      Update(shown.(items := pending[id].value.items));
      Finish(id);
      return true;
    }

    method AfterWrite(id: CallId, ok: bool) returns (answer: bool)
      requires Writing(View(), id) && (ok ==> calls[id].landed)
      modifies this
      ensures (View(), answer) == VaultControl.AfterWrite(old(View()), id, ok)
    {
      if calls[id].Creating? {
        AfterCreation(id, ok);
        return false;
      }
      answer := AfterChange(id, ok);
    }

    method ConfirmRemoval(ticket: Ticket, now: Time, works: bool) returns (answer: Option<bool>)
      modifies this
      ensures (View(), answer) == VaultControl.ConfirmRemoval(old(View()), ticket, now, works)
    {
      if ticket.epoch != epoch || ticket.stateVersion != stateVersion {
        return Some(false);
      }
      answer := Mutate(RemoveItem(ticket.id), now, works);
    }
  }
}
