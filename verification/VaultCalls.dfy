/** When a call of the mobile controller begins, what it writes, and what a refused one leaves. */
module VaultCalls {
  import opened SyncModel
  import opened VaultControl

  /** Nothing but the counters moved. */
  ghost predicate OnlyCounted(c: Control, after: Control) {
    after == c.(stateVersion := after.stateVersion, nextId := after.nextId)
  }

  lemma IdleHasNoDraft(c: Control)
    requires Inv(c) && !c.shown.busy
    ensures c.calls == map[] && c.pending == map[]
  {
    assert forall id :: id !in c.calls;
  }

  /** A change is being written exactly if the vault is open and idle, the change applies to what is
      shown, and sealing works; what is written is the changed vault. A change that does not begin
      answers false and leaves everything as it was. */
  lemma ChangeBegins(c: Control, change: Change, now: Time, works: bool)
    requires Inv(c)
    ensures var (after, answer) := Mutate(c, change, now, works);
      var items := Changed(c.shown.items, change);
      && (answer.None? <==> c.active && c.shown.unlocked && !c.shown.busy && items.Some? && works)
      && (answer.None? ==>
            && after.calls == map[c.nextId := Changing(c.epoch, c.session.value, Document(items.value, now), false)]
            && after.shown == c.shown.(busy := true) && after.durable == c.durable)
      && (answer.Some? ==> answer == Some(false) && OnlyCounted(c, after))
  {
    if MayChange(c) {
      IdleHasNoDraft(c);
    }
    hide Inv, Changed;
  }

  /** An authentication begins exactly if the controller is ready, idle, active and locked, and
      there is a vault to open or none that creating one would replace. */
  lemma AuthenticationBegins(c: Control, create: bool)
    requires Inv(c)
    ensures var after := Authenticate(c, create);
      var begins := c.active && c.shown.ready && !c.shown.busy && !c.shown.unlocked && create != c.shown.hasVault;
      if begins then
        && after.calls == map[c.nextId := Yielding(c.epoch, create)]
        && after.shown == c.shown.(busy := true)
        && after == c.(stateVersion := after.stateVersion, nextId := after.nextId, calls := after.calls,
                       shown := after.shown)
      else OnlyCounted(c, after)
  {
    if !c.shown.busy {
      IdleHasNoDraft(c);
    }
  }

  /** A creation goes on to write an empty vault exactly if the key derivation works and no lock came
      in between; otherwise it ends and keeps nothing. */
  lemma CreationWrites(c: Control, id: CallId, works: bool, now: Time)
    requires Inv(c) && id in c.calls && c.calls[id].Yielding? && c.calls[id].create
    ensures var after := AfterYield(c, id, works, now);
      && after.durable == c.durable && after.envelope == c.envelope
      && (Writing(after, id) <==> works && c.calls[id].epoch == c.epoch)
      && (Writing(after, id) ==>
            after.calls[id].Creating? && after.calls[id].written == Document([], now) && !after.calls[id].landed)
      && (!Writing(after, id) ==>
            && after.calls == map[] && after.owned == map[] && after.pending == map[]
            && after.shown == c.shown.(busy := false))
  {
    assert CallFits(c, id);
    assert forall j <- c.calls :: j == id;
    assert c.owned == map[];
    hide Inv, CallFits, OneCall;
  }

  /** The load that returns first decides whether the controller is ready, and shows a vault exactly
      if the store holds one. */
  lemma LoadShows(c: Control, ok: bool)
    requires Inv(c) && c.loading
    ensures var after := Step(c, Load(ok));
      && !after.loading
      && (after.shown.ready <==> ok)
      && (ok ==> (after.shown.hasVault <==> c.durable != []) && after.envelope == Newest(c.durable))
      && !after.shown.unlocked && after.calls == map[]
  {
    assert forall id :: id !in c.calls;
  }

  function FirstLoad(events: seq<Event>): Option<bool> {
    if events == [] then None
    else
      var before := FirstLoad(events[..|events| - 1]);
      var e := events[|events| - 1];
      if before.None? && e.Load? then Some(e.ok) else before
  }

  function LastActivity(events: seq<Event>): bool {
    if events == [] then true
    else
      var e := events[|events| - 1];
      if e.Activity? then e.active else LastActivity(events[..|events| - 1])
  }

  /** What no call ever changes. */
  ghost predicate SameStanding(c: Control, after: Control) {
    after.loading == c.loading && after.shown.ready == c.shown.ready && after.active == c.active
  }

  lemma ResumptionKeepsStanding(c: Control, id: CallId, works: bool, now: Time)
    requires id in c.calls && c.calls[id].Yielding?
    ensures SameStanding(c, AfterYield(c, id, works, now))
  {
    hide Finish, Fail, Open;
  }

  lemma ReturnKeepsStanding(c: Control, id: CallId, ok: bool)
    requires Writing(c, id) && (ok ==> c.calls[id].landed)
    ensures SameStanding(c, AfterWrite(c, id, ok).0)
  {
    hide Finish, Fail, Open;
  }

  lemma ChangeKeepsStanding(c: Control, change: Change, now: Time, works: bool)
    ensures SameStanding(c, Mutate(c, change, now, works).0)
  {
    hide Changed;
  }

  lemma StepKeepsStanding(c: Control, e: Event)
    requires !e.Load? && !e.Activity?
    ensures SameStanding(c, Step(c, e))
  {
    hide AfterYield, AfterWrite, Mutate;
    match e
    case Resume(id, works, now) =>
      if id in c.calls && c.calls[id].Yielding? {
        ResumptionKeepsStanding(c, id, works, now);
      }
    case Return(id, ok) =>
      if Writing(c, id) && (ok ==> c.calls[id].landed) {
        ReturnKeepsStanding(c, id, ok);
      }
    case Make(change, now, works) => ChangeKeepsStanding(c, change, now, works);
    case _ =>
  }

  /** A write that is reported as failed leaves everything as it was, but for a session that was
      only being created. */
  lemma FailedWriteLeaves(c: Control, id: CallId)
    requires Inv(c) && Writing(c, id)
    ensures var (after, answer) := AfterWrite(c, id, false);
      && !answer && after.calls == map[] && after.pending == map[]
      && after.shown == c.shown.(busy := false)
      && after.envelope == c.envelope && after.durable == c.durable && after.session == c.session
      && after.owned == if c.calls[id].Creating? then map[] else c.owned
  {
    assert CallFits(c, id);
    assert forall j <- c.calls :: j == id;
    assert c.calls[id].Creating? ==> forall s <- c.owned :: s == c.calls[id].session;
    hide Inv, CallFits, OneCall;
  }

  /** In every run the controller is ready exactly if its load has succeeded, and as active as it
      was last told. */
  lemma {:induction false} ReadyAndActive(durable: seq<Document>, events: seq<Event>)
    ensures var c := Run(Started(durable), events);
      && (c.loading <==> FirstLoad(events).None?)
      && (c.shown.ready <==> FirstLoad(events) == Some(true))
      && (c.active <==> LastActivity(events))
  {
    if events != [] {
      var before, e := events[..|events| - 1], events[|events| - 1];
      ReadyAndActive(durable, before);
      var c := Run(Started(durable), before);
      if !e.Load? && !e.Activity? {
        StepKeepsStanding(c, e);
      }
      LoadDecides(c, e);
      hide Step;
    }
  }

  lemma LoadDecides(c: Control, e: Event)
    ensures e.Load? && c.loading ==> !Step(c, e).loading && Step(c, e).shown.ready == e.ok
    ensures e.Load? && !c.loading ==> Step(c, e) == c
    ensures e.Load? ==> Step(c, e).active == c.active
    ensures e.Activity? ==> Step(c, e).active == e.active
    ensures e.Activity? ==> Step(c, e).loading == c.loading && Step(c, e).shown.ready == c.shown.ready
  {
  }
}
