/** The mobile vault controller as a state machine over the stretches of code between its awaits.

  A call that waits is an entry of `calls`; anything else may run before it is resumed.
  Encryption is ideal, so an encrypted vault is named by the document it opens to, and
  `durable` lists the vaults that the store has published, oldest first.
 */
module VaultControl {
  import opened SyncModel
  import opened SyncClient
  import D = SyncDocuments

  type SessionId = nat
  type CallId = nat

  /** A suspended call: before the key derivation, or waiting for the store. */
  datatype Call =
    | Yielding(epoch: nat, create: bool)
    | Creating(epoch: nat, session: SessionId, written: Document, landed: bool)
    | Changing(epoch: nat, session: SessionId, written: Document, landed: bool)

  /** What the user interface shows. */
  datatype Shown = Shown(ready: bool, busy: bool, hasVault: bool, unlocked: bool, items: seq<Item>)

  /** `strayed` keeps the last write that the store had published, if it was reported as failed. */
  datatype Control = Control(
    loading: bool,
    epoch: nat,
    stateVersion: nat,
    active: bool,
    envelope: Option<Document>,
    session: Option<SessionId>,
    owned: map<SessionId, Document>,
    pending: map<CallId, Option<Document>>,
    shown: Shown,
    calls: map<CallId, Call>,
    nextId: nat,
    durable: seq<Document>,
    strayed: Option<Document>)

  datatype Change = SaveItem(item: Item, isNew: bool) | RemoveItem(id: RecordId)

  function Newest(durable: seq<Document>): Option<Document> {
    if durable == [] then None else Some(durable[|durable| - 1])
  }

  function Update(c: Control, shown: Shown): Control {
    c.(stateVersion := c.stateVersion + 1, shown := shown)
  }

  function Started(durable: seq<Document>): Control {
    Control(true, 0, 0, true, None, None, map[], map[], Shown(false, false, false, false, []), map[], 0, durable, None)
  }

  /******* Steps *******/

  /** The only load of a controller returns, or fails. */
  function LoadReturns(c: Control, ok: bool): (r: Control)
    ensures r.calls == c.calls && r.nextId == c.nextId && r.epoch == c.epoch && r.stateVersion > c.stateVersion
    ensures r.shown.unlocked == c.shown.unlocked
  {
    if !ok then Update(c.(loading := false), c.shown.(ready := false))
    else
      var envelope := Newest(c.durable);
      Update(c.(loading := false, envelope := envelope), c.shown.(ready := true, hasVault := envelope.Some?))
  }

  /** Every draft is forgotten; its call notices when it resumes. */
  function Forgotten(pending: map<CallId, Option<Document>>): map<CallId, Option<Document>> {
    map id | id in pending :: None
  }

  function Lock(c: Control): (r: Control)
    ensures r.calls == c.calls && r.nextId == c.nextId && r.epoch > c.epoch && r.stateVersion > c.stateVersion
    ensures !r.shown.unlocked
  {
    Update(c.(epoch := c.epoch + 1,
              session := None,
              owned := map[],
              pending := Forgotten(c.pending)),
           c.shown.(unlocked := false, items := []))
  }

  function SetActive(c: Control, active: bool): (r: Control)
    ensures r.calls == c.calls && r.nextId == c.nextId && r.epoch >= c.epoch
    ensures if active then r == c.(active := true) else r.stateVersion > c.stateVersion && r.epoch > c.epoch
    ensures r.shown.unlocked ==> c.shown.unlocked
  {
    if active then c.(active := true) else Lock(c.(active := false))
  }

  function Authenticate(c: Control, create: bool): (r: Control)
    ensures r.nextId >= c.nextId && r.calls.Keys <= c.calls.Keys + {c.nextId}
    ensures r == c || r.stateVersion > c.stateVersion
  {
    if !c.active || !c.shown.ready || c.shown.busy || c.shown.unlocked then c
    else if create == c.shown.hasVault then Update(c, c.shown)
    else
      Update(c.(calls := c.calls[c.nextId := Yielding(c.epoch, create)], nextId := c.nextId + 1),
             c.shown.(busy := true))
  }

  /** The end of every call. */
  function Finish(c: Control, id: CallId): (r: Control)
    ensures r.stateVersion > c.stateVersion && r.epoch == c.epoch
    ensures r.nextId == c.nextId && r.calls == c.calls - {id} && r.strayed == c.strayed
    ensures r.loading == c.loading && r.active == c.active && r.shown.ready == c.shown.ready
  {
    Update(c.(calls := c.calls - {id}, pending := c.pending - {id}), c.shown.(busy := false))
  }

  /** A call that failed says so, unless the vault was locked meanwhile. */
  function Fail(c: Control, id: CallId, epoch: nat): (r: Control)
    ensures r.stateVersion > c.stateVersion && r.epoch == c.epoch
    ensures r.nextId == c.nextId && r.calls == c.calls - {id} && r.strayed == c.strayed
    ensures r.loading == c.loading && r.active == c.active && r.shown.ready == c.shown.ready
  {
    Finish(if epoch == c.epoch then Update(c, c.shown) else c, id)
  }

  function Discard(c: Control, session: SessionId): Control {
    c.(owned := c.owned - {session})
  }

  function ItemsOf(c: Control, session: SessionId): seq<Item> {
    if session in c.owned then c.owned[session].items else []
  }

  /** The end of a creation or of an unlocking that brought a session. */
  function Open(c: Control, id: CallId, epoch: nat, session: SessionId): (r: Control)
    ensures r.stateVersion > c.stateVersion && r.epoch == c.epoch
    ensures r.nextId == c.nextId && r.calls == c.calls - {id} && r.strayed == c.strayed
    ensures r.loading == c.loading && r.active == c.active && r.shown.ready == c.shown.ready
  {
    if !c.active || epoch != c.epoch then Finish(Discard(c, session), id)
    else Finish(Update(c.(session := Some(session)), c.shown.(unlocked := true, items := ItemsOf(c, session))), id)
  }

  /** `works` says whether the key derivation and the decryption succeed. */
  function AfterYield(c: Control, id: CallId, works: bool, now: Time): (r: Control)
    requires id in c.calls && c.calls[id].Yielding?
    ensures r.epoch == c.epoch && (r.stateVersion > c.stateVersion || Writing(r, id))
    ensures r.nextId >= c.nextId && r.calls.Keys <= c.calls.Keys && r.strayed == c.strayed
  {
    var call := c.calls[id];
    if !c.active || call.epoch != c.epoch then Finish(c, id)
    else if !works || (!call.create && c.envelope.None?) then Fail(c, id, call.epoch)
    else
      var session := c.nextId;
      var document := if call.create then Document([], now) else c.envelope.value;
      var owning := c.(owned := c.owned[session := document], nextId := c.nextId + 1);
      if call.create then owning.(calls := c.calls[id := Creating(call.epoch, session, document, false)])
      else Open(owning, id, call.epoch, session)
  }

  function Changed(items: seq<Item>, change: Change): Option<seq<Item>> {
    match change
    case SaveItem(item, isNew) =>
      if FindItem(items, item.id).Some? == isNew then None
      else Some(if isNew then items + [item] else Replaced(items, item))
    case RemoveItem(id) =>
      if FindItem(items, id).None? then None else Some(Without(items, id))
  }

  function Replaced(items: seq<Item>, item: Item): (r: seq<Item>)
    ensures |r| == |items|
    ensures forall k :: 0 <= k < |r| ==> r[k] == if items[k].id == item.id then item else items[k]
  {
    seq(|items|, k requires 0 <= k < |items| => if items[k].id == item.id then item else items[k])
  }

  predicate MayChange(c: Control) {
    c.active && c.session.Some? && c.envelope.Some? && !c.shown.busy
  }

  /** A change begins with a draft that holds nothing yet. */
  function Busy(c: Control): Control {
    Update(c.(pending := c.pending[c.nextId := None], nextId := c.nextId + 1), c.shown.(busy := true))
  }

  /** `works` says whether sealing succeeds. The result is what the call returns, if it does yet. */
  function Mutate(c: Control, change: Change, now: Time, works: bool): (r: (Control, Option<bool>))
    ensures r.0.epoch == c.epoch && if MayChange(c) then r.0.stateVersion > c.stateVersion else r.0 == c
    ensures r.0.nextId >= c.nextId && r.0.calls.Keys <= c.calls.Keys + {c.nextId} && r.0.strayed == c.strayed
  {
    if !MayChange(c) then (c, Some(false))
    else
      var id, session := c.nextId, c.session.value;
      var busy := Busy(c);
      var items := Changed(ItemsOf(c, session), change);
      if items.None? || !works then (Fail(busy, id, c.epoch), Some(false))
      else
        var document := Document(items.value, now);
        (busy.(pending := busy.pending[id := Some(document)],
               calls := c.calls[id := Changing(c.epoch, session, document, false)]),
         None)
  }

  predicate Writing(c: Control, id: CallId) {
    id in c.calls && !c.calls[id].Yielding?
  }

  /** The store publishes what a call is writing. */
  function WriteLands(c: Control, id: CallId): (r: Control)
    requires Writing(c, id) && !c.calls[id].landed
    ensures r.calls.Keys == c.calls.Keys && r == c.(durable := r.durable, calls := r.calls)
    ensures forall j <- c.calls :: r.calls[j].epoch == c.calls[j].epoch
  {
    c.(durable := c.durable + [c.calls[id].written], calls := c.calls[id := c.calls[id].(landed := true)])
  }

  function AfterWrite(c: Control, id: CallId, ok: bool): (r: (Control, bool))
    requires Writing(c, id) && (ok ==> c.calls[id].landed)
    ensures r.0.epoch == c.epoch && r.0.stateVersion > c.stateVersion
    ensures r.0.nextId == c.nextId && r.0.calls == c.calls - {id}
  {
    var call := c.calls[id];
    var seen := c.(strayed := if ok then None else if call.landed then Some(call.written) else c.strayed);
    if call.Creating? then
      if !ok then (Fail(Discard(seen, call.session), id, call.epoch), false)
      else
        var stored := Update(seen.(envelope := Some(call.written)), c.shown.(hasVault := true));
        (Open(stored, id, call.epoch, call.session), false)
    else if !ok then (Fail(seen, id, call.epoch), false)
    else
      var stored := seen.(envelope := Some(call.written));
      if call.epoch != c.epoch || !c.active || id !in c.pending || c.pending[id].None? then (Finish(stored, id), false)
      else
        var document := c.pending[id].value;
        var changed := stored.(owned := c.owned[call.session := document]);
        (Finish(Update(changed, c.shown.(items := document.items)), id), true)
  }

  /** What `prepareRemoval` keeps while a dialog is open. */
  datatype Ticket = Ticket(epoch: nat, stateVersion: nat, id: RecordId)

  function PrepareRemoval(c: Control, id: RecordId): Ticket {
    Ticket(c.epoch, c.stateVersion, id)
  }

  function ConfirmRemoval(c: Control, ticket: Ticket, now: Time, works: bool): (Control, Option<bool>) {
    if ticket.epoch != c.epoch || ticket.stateVersion != c.stateVersion then (c, Some(false))
    else Mutate(c, RemoveItem(ticket.id), now, works)
  }

  /******* Runs *******/

  datatype Event =
    | Load(ok: bool)
    | Activity(active: bool)
    | LockNow
    | Begin(create: bool)
    | Resume(id: CallId, works: bool, now: Time)
    | Make(change: Change, now: Time, works: bool)
    | Land(id: CallId)
    | Return(id: CallId, ok: bool)

  /** One step. A resumption of a call that does not wait for it is no step. */
  function Step(c: Control, e: Event): Control {
    match e
    case Load(ok) => if c.loading then LoadReturns(c, ok) else c
    case Activity(active) => SetActive(c, active)
    case LockNow => Lock(c)
    case Begin(create) => Authenticate(c, create)
    case Resume(id, works, now) =>
      if id in c.calls && c.calls[id].Yielding? then AfterYield(c, id, works, now) else c
    case Make(change, now, works) => Mutate(c, change, now, works).0
    case Land(id) => if Writing(c, id) && !c.calls[id].landed then WriteLands(c, id) else c
    case Return(id, ok) => if Writing(c, id) && (ok ==> c.calls[id].landed) then AfterWrite(c, id, ok).0 else c
  }

  function Run(c: Control, events: seq<Event>): Control {
    if events == [] then c else Step(Run(c, events[..|events| - 1]), events[|events| - 1])
  }

  /******* The invariant *******/

  ghost predicate Waiting(c: Control) {
    exists id :: id in c.calls
  }

  /** At most one call is in flight, and the busy flag says whether one is. */
  ghost predicate OneCall(c: Control) {
    && (forall i, j :: i in c.calls && j in c.calls ==> i == j)
    && (c.shown.busy <==> Waiting(c))
    && (forall id <- c.calls :: id < c.nextId && c.calls[id].epoch <= c.epoch)
    && (Waiting(c) ==> c.shown.ready)
    && (c.loading ==> !c.shown.ready && c.strayed.None?)
    && (!c.shown.ready ==> !c.shown.unlocked)
  }

  /** Inactive or locked means no session and no items; unlocked means that the items shown are
      those of the session and of the vault last written. */
  ghost predicate ShowsSession(c: Control) {
    && (!c.active ==> !c.shown.unlocked)
    && (c.shown.unlocked <==> c.session.Some?)
    && (!c.shown.unlocked ==> c.shown.items == [])
    && (c.shown.hasVault <==> c.envelope.Some?)
    && (c.shown.unlocked ==>
          && c.session.value in c.owned && c.owned[c.session.value].items == c.shown.items
          && c.envelope.Some? && c.envelope.value.items == c.shown.items)
  }

  /** A call from before the last lock owns nothing; a later one owns what it works on. */
  ghost predicate CallFits(c: Control, id: CallId)
    requires id in c.calls
  {
    var call := c.calls[id];
    && (call.epoch == c.epoch ==> c.active)
    && (call.epoch != c.epoch || !call.Changing? ==> !c.shown.unlocked)
    && (call.epoch == c.epoch && call.Creating? ==> call.session in c.owned && c.owned[call.session] == call.written)
    && (call.epoch == c.epoch && call.Changing? ==>
          && c.session == Some(call.session)
          && id in c.pending && c.pending[id] == Some(call.written))
    && (call.epoch != c.epoch && id in c.pending ==> c.pending[id].None?)
    && (call.Changing? || (call.Yielding? && !call.create) ==> c.envelope.Some?)
    && (!call.Yielding? ==> call.session < c.nextId)
  }

  /** No session and no draft is kept but for the open session and for the call in flight. */
  ghost predicate NothingLeftBehind(c: Control) {
    && (forall s <- c.owned :: s < c.nextId && (c.session == Some(s) || OwnedByCall(c, s)))
    && (forall id <- c.pending :: id in c.calls)
  }

  ghost predicate OwnedByCall(c: Control, s: SessionId) {
    exists id :: id in c.calls && c.calls[id].Creating? && c.calls[id].epoch == c.epoch && c.calls[id].session == s
  }

  /** What a call has published, or nothing. */
  ghost predicate Landed(c: Control, id: CallId) {
    Writing(c, id) && c.calls[id].landed
  }

  /** The newest durable vault is what a call has just published, else the write that was published
      and reported as failed, else the vault that the controller holds. */
  ghost predicate HoldsNewest(c: Control) {
    c.shown.ready ==>
      && ((forall id <- c.calls :: !Landed(c, id)) ==>
            Newest(c.durable) == if c.strayed.Some? then c.strayed else c.envelope)
      && (forall id <- c.calls :: Landed(c, id) ==> Newest(c.durable) == Some(c.calls[id].written))
  }

  ghost predicate Inv(c: Control) {
    && OneCall(c)
    && ShowsSession(c)
    && (forall id <- c.calls :: CallFits(c, id))
    && NothingLeftBehind(c)
    && HoldsNewest(c)
  }

  /******* Every step keeps it *******/

  lemma StartsFit(durable: seq<Document>)
    ensures Inv(Started(durable))
  {
  }

  lemma LoadKeeps(c: Control, ok: bool)
    requires Inv(c) && c.loading
    ensures Inv(LoadReturns(c, ok))
  {
  }

  lemma LockKeeps(c: Control)
    requires Inv(c)
    ensures Inv(Lock(c))
  {
    var next := Lock(c);
    assert next.calls == c.calls;
    forall id | id in next.calls
      ensures CallFits(next, id)
    {
      assert CallFits(c, id);
    }
    assert HoldsNewest(next);
  }

  lemma ActivityKeeps(c: Control, active: bool)
    requires Inv(c)
    ensures Inv(SetActive(c, active))
  {
    if !active {
      LockKeeps(c);
      var locked := Lock(c);
      assert SetActive(c, active) == locked.(active := false);
      forall id | id in locked.calls
        ensures CallFits(locked.(active := false), id)
      {
        assert CallFits(locked, id);
        assert c.calls[id].epoch < locked.epoch;
      }
    }
  }

  lemma AuthenticateKeeps(c: Control, create: bool)
    requires Inv(c)
    ensures Inv(Authenticate(c, create))
  {
    var next := Authenticate(c, create);
    assert next != c && next.shown.busy ==> c.nextId in next.calls;
  }

  /** Without a call in flight the invariant is about the open session and the durable vault only. */
  lemma IdleFits(c: Control)
    requires c.calls == map[] && !c.shown.busy && ShowsSession(c) && c.pending == map[]
    requires (c.loading ==> !c.shown.ready && c.strayed.None?) && (!c.shown.ready ==> !c.shown.unlocked)
    requires forall s <- c.owned :: s < c.nextId && c.session == Some(s)
    requires c.shown.ready ==> Newest(c.durable) == if c.strayed.Some? then c.strayed else c.envelope
    ensures Inv(c)
  {
  }

  lemma UnlockingKeeps(c: Control, id: CallId, works: bool, now: Time)
    requires Inv(c) && id in c.calls && c.calls[id].Yielding? && !c.calls[id].create
    ensures Inv(AfterYield(c, id, works, now))
  {
    assert CallFits(c, id);
    assert forall j <- c.calls :: j == id;
    assert c.owned == map[];
    hide Inv, CallFits, OneCall, NothingLeftBehind;
    IdleFits(AfterYield(c, id, works, now));
  }

  lemma CreatingKeeps(c: Control, id: CallId, works: bool, now: Time)
    requires Inv(c) && id in c.calls && c.calls[id].Yielding? && c.calls[id].create
    ensures Inv(AfterYield(c, id, works, now))
  {
    assert CallFits(c, id);
    assert forall j <- c.calls :: j == id;
    assert c.owned == map[];
    var next := AfterYield(c, id, works, now);
    if c.active && c.calls[id].epoch == c.epoch && works {
      assert next.calls == map[id := Creating(c.epoch, c.nextId, Document([], now), false)];
      assert next.owned == map[c.nextId := Document([], now)];
      assert Writing(next, id);
    } else {
      hide Inv, CallFits, OneCall, NothingLeftBehind;
      IdleFits(next);
    }
  }

  lemma AfterYieldKeeps(c: Control, id: CallId, works: bool, now: Time)
    requires Inv(c) && id in c.calls && c.calls[id].Yielding?
    ensures Inv(AfterYield(c, id, works, now))
  {
    if c.calls[id].create {
      CreatingKeeps(c, id, works, now);
    } else {
      UnlockingKeeps(c, id, works, now);
    }
  }

  lemma MutateKeeps(c: Control, change: Change, now: Time, works: bool)
    requires Inv(c)
    ensures Inv(Mutate(c, change, now, works).0)
  {
    if MayChange(c) {
      var next := Mutate(c, change, now, works).0;
      assert !Waiting(c);
      assert next.shown.busy ==> c.nextId in next.calls;
    }
  }

  lemma LandKeeps(c: Control, id: CallId)
    requires Inv(c) && Writing(c, id) && !c.calls[id].landed
    ensures Inv(WriteLands(c, id))
  {
    assert CallFits(c, id);
    assert id in WriteLands(c, id).calls;
    assert forall s <- c.owned :: OwnedByCall(c, s) ==> OwnedByCall(WriteLands(c, id), s);
  }

  lemma CreationReturns(c: Control, id: CallId, ok: bool)
    requires Inv(c) && Writing(c, id) && c.calls[id].Creating? && (ok ==> c.calls[id].landed)
    ensures Inv(AfterWrite(c, id, ok).0)
  {
    assert CallFits(c, id);
    assert forall j <- c.calls :: j == id;
    assert forall s <- c.owned :: s == c.calls[id].session;
    hide Inv, CallFits, OneCall, NothingLeftBehind;
    IdleFits(AfterWrite(c, id, ok).0);
  }

  lemma ChangeReturns(c: Control, id: CallId, ok: bool)
    requires Inv(c) && Writing(c, id) && c.calls[id].Changing? && (ok ==> c.calls[id].landed)
    ensures Inv(AfterWrite(c, id, ok).0)
  {
    assert CallFits(c, id);
    assert forall j <- c.calls :: j == id;
  }

  lemma StepKeeps(c: Control, e: Event)
    requires Inv(c)
    ensures Inv(Step(c, e))
  {
    match e
    case Load(ok) =>
      if c.loading {
        LoadKeeps(c, ok);
      }
    case Activity(active) => ActivityKeeps(c, active);
    case LockNow => LockKeeps(c);
    case Begin(create) => AuthenticateKeeps(c, create);
    case Resume(id, works, now) =>
      if id in c.calls && c.calls[id].Yielding? {
        AfterYieldKeeps(c, id, works, now);
      }
    case Make(change, now, works) => MutateKeeps(c, change, now, works);
    case Land(id) =>
      if Writing(c, id) && !c.calls[id].landed {
        LandKeeps(c, id);
      }
    case Return(id, ok) =>
      if Writing(c, id) && (ok ==> c.calls[id].landed) {
        if c.calls[id].Creating? {
          CreationReturns(c, id, ok);
        } else {
          ChangeReturns(c, id, ok);
        }
      }
  }

  lemma {:induction false} RunKeeps(c: Control, events: seq<Event>)
    requires Inv(c)
    ensures Inv(Run(c, events))
  {
    if events != [] {
      RunKeeps(c, events[..|events| - 1]);
      StepKeeps(Run(c, events[..|events| - 1]), events[|events| - 1]);
    }
  }

  /** What the store answered to the last write that it had published. */
  datatype Answer = Answer(written: Document, ok: bool)

  function LastAnswer(c: Control, events: seq<Event>): Option<Answer> {
    if events == [] then None
    else
      var before := events[..|events| - 1];
      var d := Run(c, before);
      match events[|events| - 1]
      case Return(id, ok) =>
        if Writing(d, id) && d.calls[id].landed then Some(Answer(d.calls[id].written, ok)) else LastAnswer(c, before)
      case _ => LastAnswer(c, before)
  }

  lemma StepStrays(c: Control, e: Event)
    ensures Step(c, e).strayed ==
            if e.Return? && Writing(c, e.id) && c.calls[e.id].landed
            then if e.ok then None else Some(c.calls[e.id].written)
            else c.strayed
  {
    hide Finish, Fail, Open, AfterYield, Mutate;
    if e.Return? && Writing(c, e.id) && (e.ok ==> c.calls[e.id].landed) {
      AnswerStrays(c, e.id, e.ok);
    }
    hide AfterWrite;
  }

  lemma AnswerStrays(c: Control, id: CallId, ok: bool)
    requires Writing(c, id) && (ok ==> c.calls[id].landed)
    ensures AfterWrite(c, id, ok).0.strayed ==
            if ok then None else if c.calls[id].landed then Some(c.calls[id].written) else c.strayed
  {
    hide Finish, Fail, Open;
  }

  lemma {:induction false} StrayedIsLastAnswer(c: Control, events: seq<Event>)
    requires c.strayed.None?
    ensures Run(c, events).strayed ==
            match LastAnswer(c, events)
            case Some(a) => if a.ok then None else Some(a.written)
            case None => None
  {
    if events != [] {
      var before := events[..|events| - 1];
      StrayedIsLastAnswer(c, before);
      StepStrays(Run(c, before), events[|events| - 1]);
    }
  }

  /** What holds in every interleaving: one operation at most; inactive or locked means no
      session and no items, and once idle not a document in memory. */
  lemma EveryRun(durable: seq<Document>, events: seq<Event>)
    ensures var c := Run(Started(durable), events);
      && (forall i, j :: i in c.calls && j in c.calls ==> i == j)
      && (!c.active || !c.shown.unlocked ==> c.session.None? && c.shown.items == [])
      && (!c.shown.unlocked && c.calls == map[] ==> c.owned == map[] && c.pending == map[])
  {
    StartsFit(durable);
    RunKeeps(Started(durable), events);
  }

  ghost predicate ShowsNewest(c: Control) {
    Newest(c.durable).Some? && Newest(c.durable).value.items == c.shown.items
  }

  /** In every run, unlocked and with no published write about to return: the items shown are those
      of the newest durable vault exactly if the last published write was answered as a success,
      or there was none, or it held the items shown. */
  lemma ShowsNewestExactly(durable: seq<Document>, events: seq<Event>)
    ensures var c := Run(Started(durable), events);
      var last := LastAnswer(Started(durable), events);
      c.shown.unlocked && (forall id <- c.calls :: !Landed(c, id)) ==>
        (ShowsNewest(c) <==> last.None? || last.value.ok || last.value.written.items == c.shown.items)
  {
    StartsFit(durable);
    RunKeeps(Started(durable), events);
    StrayedIsLastAnswer(Started(durable), events);
  }

  /** Unlocked and idle, with a vault that holds no login. */
  ghost predicate EmptyAndOpen(c: Control) {
    && c.active && c.epoch == 0 && c.calls == map[] && c.shown == Shown(true, false, true, true, [])
    && c.envelope == Some(Document([], 0)) && c.durable == [Document([], 0)]
    && c.session == Some(1) && 1 in c.owned && c.owned[1].items == [] && c.nextId == 2
  }

  lemma OpensEmpty()
    ensures EmptyAndOpen(Step(Step(Step(Started([Document([], 0)]), Load(true)), Begin(false)), Resume(0, true, 0)))
  {
    var loaded := Step(Started([Document([], 0)]), Load(true));
    var begun := Step(loaded, Begin(false));
    assert begun.calls == map[0 := Yielding(0, false)];
  }

  lemma StraysFrom(c: Control, item: Item)
    requires EmptyAndOpen(c)
    ensures var after := Step(Step(Step(c, Make(SaveItem(item, true), 1, true)), Land(2)), Return(2, false));
      && after.shown.unlocked && after.calls == map[] && after.shown.items == []
      && Newest(after.durable) == Some(Document([item], 1))
  {
    var made := Step(c, Make(SaveItem(item, true), 1, true));
    assert [] + [item] == [item];
    assert made.calls == map[2 := Changing(0, 1, Document([item], 1), false)];
    var landed := Step(made, Land(2));
    assert landed.calls == map[2 := Changing(0, 1, Document([item], 1), true)];
    assert landed.shown.unlocked && landed.shown.items == [];
  }

  /** The exception is real: a published write that is reported as failed leaves the old items shown. */
  lemma StrayedShowsOldItems(item: Item)
    ensures var events := [Load(true), Begin(false), Resume(0, true, 0), Make(SaveItem(item, true), 1, true),
                           Land(2), Return(2, false)];
      var c := Run(Started([Document([], 0)]), events);
      c.shown.unlocked && c.calls == map[] && c.shown.items == [] && Newest(c.durable) == Some(Document([item], 1))
  {
    hide Step;
    var start := Started([Document([], 0)]);
    var events := [Load(true), Begin(false), Resume(0, true, 0), Make(SaveItem(item, true), 1, true),
                   Land(2), Return(2, false)];
    OpensEmpty();
    RunOfThree(start, events);
    StraysFrom(Run(start, events[..3]), item);
    RunOneMore(start, events, 3);
    RunOneMore(start, events, 4);
    RunOneMore(start, events, 5);
    assert events[..6] == events;
  }

  lemma RunOneMore(c: Control, events: seq<Event>, n: nat)
    requires n < |events|
    ensures Run(c, events[..n + 1]) == Step(Run(c, events[..n]), events[n])
  {
    assert events[..n + 1][..n] == events[..n];
  }

  lemma RunOfThree(c: Control, events: seq<Event>)
    requires |events| >= 3
    ensures Run(c, events[..3]) == Step(Step(Step(c, events[0]), events[1]), events[2])
  {
    hide Step;
    RunOneMore(c, events, 0);
    RunOneMore(c, events, 1);
    RunOneMore(c, events, 2);
    assert events[..0] == [];
  }

  /******* Locking is final *******/

  /** Locked, with no call that began after the lock. */
  ghost predicate Revoked(c: Control) {
    !c.shown.unlocked && forall id <- c.calls :: c.calls[id].epoch != c.epoch
  }

  /** A call from before the lock ends without opening or showing anything. */
  lemma OldCallEnds(c: Control, id: CallId, e: Event)
    requires Inv(c) && id in c.calls && c.calls[id].epoch != c.epoch
    requires (e.Resume? && e.id == id) || (e.Return? && e.id == id)
    ensures Step(c, e).epoch == c.epoch && !Step(c, e).shown.unlocked
    ensures Step(c, e).calls == c.calls || Step(c, e).calls == c.calls - {id}
  {
    assert CallFits(c, id);
    hide AfterYield, AfterWrite;
    match e
    case Resume(_, works, now) =>
      if c.calls[id].Yielding? {
        OldResumptionEnds(c, id, works, now);
      }
    case Return(_, ok) =>
      if Writing(c, id) && (ok ==> c.calls[id].landed) {
        OldReturnEnds(c, id, ok);
      }
  }

  lemma OldResumptionEnds(c: Control, id: CallId, works: bool, now: Time)
    requires id in c.calls && c.calls[id].Yielding? && c.calls[id].epoch != c.epoch
    ensures AfterYield(c, id, works, now) == Finish(c, id)
    ensures Finish(c, id).shown.unlocked == c.shown.unlocked
  {
  }

  lemma OldReturnEnds(c: Control, id: CallId, ok: bool)
    requires Writing(c, id) && (ok ==> c.calls[id].landed) && c.calls[id].epoch != c.epoch
    ensures AfterWrite(c, id, ok).0.shown.unlocked == c.shown.unlocked
  {
  }

  lemma LockedRefusesChanges(c: Control)
    requires c.session.None?
    ensures forall change, now, works :: Mutate(c, change, now, works) == (c, Some(false))
  {
  }

  lemma RevokedStays(c: Control, e: Event)
    requires Inv(c) && Revoked(c) && !e.Begin?
    ensures Revoked(Step(c, e))
  {
    LockedRefusesChanges(c);
    assert forall id <- c.calls :: c.calls[id].epoch < c.epoch;
    hide Inv, LoadReturns, Lock, SetActive, WriteLands, Finish, Fail, Open, AfterYield, AfterWrite, Mutate;
    if e.Resume? || e.Return? {
      if e.id in c.calls {
        OldCallEnds(c, e.id, e);
      }
    }
  }

  lemma {:induction false} RevokedForGood(c: Control, events: seq<Event>)
    requires Inv(c) && Revoked(c) && forall e <- events :: !e.Begin?
    ensures Revoked(Run(c, events))
  {
    if events != [] {
      var before := events[..|events| - 1];
      assert forall e :: e in before ==> e in events;
      RevokedForGood(c, before);
      RunKeeps(c, before);
      RevokedStays(Run(c, before), events[|events| - 1]);
    }
  }

  /** After a lock nothing that began before it unlocks the vault, shows an item, or keeps a
      session or a draft; only a new authentication can. */
  lemma LockIsFinal(c: Control, events: seq<Event>)
    requires Inv(c) && forall e <- events :: !e.Begin?
    ensures var after := Run(Lock(c), events);
      && !after.shown.unlocked && after.session.None? && after.shown.items == []
      && after.owned == map[]
      && forall id <- after.pending :: after.pending[id].None?
  {
    LockKeeps(c);
    RevokedForGood(Lock(c), events);
    RunKeeps(Lock(c), events);
    var after := Run(Lock(c), events);
    assert forall id <- after.pending :: id in after.calls && CallFits(after, id);
  }

  /** Even with later authentications in between: a call from before a lock resumes into a
      locked vault, and leaves it locked. */
  lemma OldCallShowsNothing(c: Control, id: CallId, e: Event)
    requires Inv(c) && id in c.calls && c.calls[id].epoch < c.epoch
    requires (e.Resume? && e.id == id) || (e.Return? && e.id == id)
    ensures var after := Step(c, e);
      !after.shown.unlocked && after.session.None? && after.shown.items == [] && after.owned == map[]
  {
    OldCallEnds(c, id, e);
    StepKeeps(c, e);
    var after := Step(c, e);
    assert forall s <- after.owned :: OwnedByCall(after, s);
  }

  /** The call has its password right, or its new vault published, and no lock came in between. */
  ghost predicate Opens(c: Control, e: Event) {
    match e
    case Resume(id, works, _) =>
      id in c.calls && c.calls[id].Yielding? && !c.calls[id].create && works && c.calls[id].epoch == c.epoch
    case Return(id, ok) =>
      Writing(c, id) && c.calls[id].Creating? && c.calls[id].landed && ok && c.calls[id].epoch == c.epoch
    case _ => false
  }

  lemma ResumptionOpens(c: Control, id: CallId, works: bool, now: Time)
    requires Inv(c) && !c.shown.unlocked && id in c.calls && c.calls[id].Yielding?
    ensures var after := AfterYield(c, id, works, now);
      && (after.shown.unlocked <==> !c.calls[id].create && works && c.calls[id].epoch == c.epoch)
      && (after.shown.unlocked ==> after.envelope.Some? && after.shown.items == after.envelope.value.items)
  {
    assert CallFits(c, id);
  }

  lemma ReturnOpens(c: Control, id: CallId, ok: bool)
    requires Inv(c) && !c.shown.unlocked && Writing(c, id) && (ok ==> c.calls[id].landed)
    ensures var after := AfterWrite(c, id, ok).0;
      && (after.shown.unlocked <==> c.calls[id].Creating? && ok && c.calls[id].epoch == c.epoch)
      && (after.shown.unlocked ==> after.envelope.Some? && after.shown.items == after.envelope.value.items)
  {
    assert CallFits(c, id);
  }

  /** Exactly these steps open a locked vault, and they show what the vault holds. */
  lemma OpensExactly(c: Control, e: Event)
    requires Inv(c) && !c.shown.unlocked
    ensures Step(c, e).shown.unlocked <==> Opens(c, e)
    ensures Opens(c, e) ==> Step(c, e).envelope.Some? && Step(c, e).shown.items == Step(c, e).envelope.value.items
  {
    LockedRefusesChanges(c);
    hide Finish, Fail, Open, AfterYield, AfterWrite, Mutate, CallFits, NothingLeftBehind, HoldsNewest;
    if e.Resume? && e.id in c.calls && c.calls[e.id].Yielding? {
      ResumptionOpens(c, e.id, e.works, e.now);
    }
    if e.Return? && Writing(c, e.id) && (e.ok ==> c.calls[e.id].landed) {
      ReturnOpens(c, e.id, e.ok);
    }
  }

  /******* A prepared removal *******/

  ghost predicate SameView(c: Control, later: Control) {
    && later.epoch == c.epoch && later.shown == c.shown && later.session == c.session
    && later.envelope == c.envelope && later.pending == c.pending
    && (c.session.Some? ==> ItemsOf(later, c.session.value) == ItemsOf(c, c.session.value))
  }

  lemma BusyRefuses(c: Control, e: Event)
    requires Inv(c) && Waiting(c) && (e.Begin? || e.Make? || e.Load?)
    ensures Step(c, e) == c
  {
  }

  /** A session being created is not shown; everything else that changes the view is counted. */
  lemma ResumptionCounts(c: Control, id: CallId, works: bool, now: Time)
    requires Inv(c) && id in c.calls && c.calls[id].Yielding?
    ensures var later := AfterYield(c, id, works, now);
      later.stateVersion >= c.stateVersion && (later.stateVersion == c.stateVersion ==> SameView(c, later))
  {
    assert CallFits(c, id);
  }

  lemma StepCounts(c: Control, e: Event)
    requires Inv(c)
    ensures Step(c, e).stateVersion >= c.stateVersion
    ensures Step(c, e).stateVersion == c.stateVersion ==> SameView(c, Step(c, e))
  {
    hide Inv, LoadReturns, Lock, SetActive, Authenticate, WriteLands, AfterYield, AfterWrite, Mutate;
    if e.Resume? && e.id in c.calls && c.calls[e.id].Yielding? {
      ResumptionCounts(c, e.id, e.works, e.now);
    }
  }

  lemma {:induction false} VersionNamesView(c: Control, events: seq<Event>)
    requires Inv(c)
    ensures Run(c, events).stateVersion >= c.stateVersion
    ensures Run(c, events).stateVersion == c.stateVersion ==> SameView(c, Run(c, events))
  {
    if events != [] {
      VersionNamesView(c, events[..|events| - 1]);
      RunKeeps(c, events[..|events| - 1]);
      StepCounts(Run(c, events[..|events| - 1]), events[|events| - 1]);
    }
  }

  /** A confirmed removal acts only on the very state for which it was prepared; after any change
      of state it answers false and changes nothing. */
  lemma PreparedRemovalIsCurrent(c: Control, r: RecordId, events: seq<Event>, now: Time, works: bool)
    requires Inv(c)
    ensures var later := Run(c, events);
      var (after, answer) := ConfirmRemoval(later, PrepareRemoval(c, r), now, works);
      && (SameView(c, later) && later.stateVersion == c.stateVersion ==>
            (after, answer) == Mutate(later, RemoveItem(r), now, works))
      && (!SameView(c, later) ==> after == later && answer == Some(false))
  {
    VersionNamesView(c, events);
  }

  /******* A change is all or nothing *******/

  /** While the call is in flight the items shown are the old ones, or none. */
  ghost predicate Underway(c: Control, d: Control, id: CallId, written: Document) {
    id < d.nextId && (id in d.calls ==>
      && d.calls[id].Changing? && d.calls[id].written == written
      && (!d.shown.unlocked || d.shown.items == c.shown.items))
  }

  lemma UnderwayStays(c: Control, d: Control, id: CallId, written: Document, e: Event)
    requires Inv(d) && Underway(c, d, id, written)
    ensures Underway(c, Step(d, e), id, written)
  {
    if id in d.calls {
      assert CallFits(d, id);
      match e
      case Resume(other, _, _) => assert other in d.calls ==> other == id;
      case Begin(_) => BusyRefuses(d, e);
      case Make(_, _, _) => BusyRefuses(d, e);
      case Load(_) => BusyRefuses(d, e);
      case _ =>
    } else {
      OthersKeepOut(d, id, e);
    }
  }

  /** A call that has ended stays ended. */
  lemma OthersKeepOut(d: Control, id: CallId, e: Event)
    requires id < d.nextId && id !in d.calls
    ensures id < Step(d, e).nextId && id !in Step(d, e).calls
  {
    hide LoadReturns, Lock, SetActive, Authenticate, WriteLands, AfterYield, AfterWrite, Mutate;
  }

  lemma {:induction false} UnderwayThroughout(c: Control, d: Control, id: CallId, written: Document, events: seq<Event>)
    requires Inv(d) && Underway(c, d, id, written)
    ensures Underway(c, Run(d, events), id, written)
  {
    if events != [] {
      var before := events[..|events| - 1];
      UnderwayThroughout(c, d, id, written, before);
      RunKeeps(d, before);
      UnderwayStays(c, Run(d, before), id, written, events[|events| - 1]);
    }
  }

  /** Whatever happens between a change and the answer of the store: the call answers true
      exactly when the changed items are durable and shown, and false with the old items or none. */
  lemma ChangeIsAllOrNothing(c: Control, change: Change, now: Time, events: seq<Event>, ok: bool)
    requires Inv(c) && MayChange(c) && Changed(c.shown.items, change).Some?
    ensures var id := c.nextId;
      var d := Run(Mutate(c, change, now, true).0, events);
      var written := Document(Changed(c.shown.items, change).value, now);
      && (id in d.calls ==> Writing(d, id))
      && (Writing(d, id) && (ok ==> d.calls[id].landed) ==>
            var (after, answer) := AfterWrite(d, id, ok);
            && (answer <==> ok && d.calls[id].epoch == d.epoch)
            && (answer ==> after.shown.items == written.items && after.envelope == Some(written))
            && (answer ==> Newest(after.durable) == Some(written) && after.strayed.None?)
            && (!answer ==> after.shown.items == c.shown.items || after.shown.items == [])
            && after.durable == d.durable)
  {
    var id := c.nextId;
    var begun := Mutate(c, change, now, true).0;
    var written := Document(Changed(c.shown.items, change).value, now);
    MutateKeeps(c, change, now, true);
    UnderwayThroughout(c, begun, id, written, events);
    RunKeeps(begun, events);
    var d := Run(begun, events);
    hide Run, Mutate, Changed;
    if id in d.calls {
      assert CallFits(d, id);
    }
  }

  /** An edited login keeps its place, a new one comes last, and the others stay where they are. */
  ghost predicate KeepsPlaces(items: seq<Item>, after: seq<Item>, change: Change) {
    match change
    case SaveItem(item, isNew) =>
      && |after| == |items| + (if isNew then 1 else 0)
      && (forall k :: 0 <= k < |items| ==> after[k] == if items[k].id == item.id then item else items[k])
      && (isNew ==> after[|items|] == item)
    case RemoveItem(id) => after == Without(items, id)
  }

  /** What a change does to the login found under each id, and when it is refused. */
  lemma ChangedFinds(items: seq<Item>, change: Change, r: RecordId)
    requires D.UniqueIds(items)
    ensures Changed(items, change).None? <==>
            match change
            case SaveItem(item, isNew) => FindItem(items, item.id).Some? == isNew
            case RemoveItem(id) => FindItem(items, id).None?
    ensures Changed(items, change).Some? ==>
      && D.UniqueIds(Changed(items, change).value)
      && FindItem(Changed(items, change).value, r) ==
         (match change
          case SaveItem(item, _) => if r == item.id then Some(item) else FindItem(items, r)
          case RemoveItem(id) => if r == id then None else FindItem(items, r))
      && KeepsPlaces(items, Changed(items, change).value, change)
  {
    match change
    case SaveItem(item, isNew) =>
      if isNew {
        D.FindAppend(items, item, r);
        D.FindSound(items, item.id);
        assert forall k :: 0 <= k < |items| ==> items[k] in items;
      } else {
        FindReplaced(items, item, r);
      }
    case RemoveItem(id) =>
      D.FindWithout(items, id, r);
      D.WithoutKeeps(items, id);
  }

  lemma {:induction false} FindReplaced(items: seq<Item>, item: Item, r: RecordId)
    ensures FindItem(Replaced(items, item), r) ==
            if r == item.id && FindItem(items, r).Some? then Some(item) else FindItem(items, r)
  {
    if items != [] {
      FindReplaced(items[1..], item, r);
      assert Replaced(items, item)[1..] == Replaced(items[1..], item);
    }
  }
}
