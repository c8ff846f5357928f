/** The unlocked vault of the browser: seals wait for one another, and closing waits for them.

  A seal is two stretches of code around the encryption: the first reads the session and the
  envelope, the second stores and replaces them. Calls may come in between. What keeps seals
  apart is only that each waits for the promise that `pendingWrite` held when it was called.
 */
module SealQueue {
  import opened SyncModel

  datatype Session = Session(key: nat, document: Document)

  /** An encrypted vault, named by the document it holds and the envelope it was sealed against. */
  datatype VaultEnvelope = Original | Over(previous: VaultEnvelope, document: Document)

  /** Encrypting may fail, and so may storing what was encrypted. */
  datatype Outcome = SealFails | StoreFails | Stores

  /** `Sealing` keeps what the first stretch has read. */
  datatype Phase = Waiting | Sealing(next: Session, against: VaultEnvelope) | Settled(outcome: Outcome)

  /** A call of `seal`; it waits for the `after`-th call, or for none if that is 0. */
  datatype Operation = Operation(document: Document, after: nat, phase: Phase)

  datatype ClosePromise = NotClosed | ClosesAfter(count: nat) | ClosedNow

  /** `pendingWrite` is the number of the last call. `stored` lists what was written, `destroyed`
      which sessions were destroyed. */
  datatype Vault = Vault(
    session: Session,
    envelope: VaultEnvelope,
    closing: bool,
    pendingWrite: nat,
    operations: seq<Operation>,
    closePromise: ClosePromise,
    stored: seq<VaultEnvelope>,
    destroyed: seq<Session>)

  function Opened(session: Session, envelope: VaultEnvelope): Vault {
    Vault(session, envelope, false, 0, [], NotClosed, [], [])
  }

  /** The promise of call `n` is settled, with success or not. */
  predicate IsSettled(operations: seq<Operation>, n: nat) {
    n == 0 || (n <= |operations| && operations[n - 1].phase.Settled?)
  }

  function Accept(v: Vault, document: Document): (Vault, bool) {
    if v.closing then (v, false)
    else
      (v.(operations := v.operations + [Operation(document, v.pendingWrite, Waiting)],
          pendingWrite := |v.operations| + 1),
       true)
  }

  predicate MayStart(v: Vault, k: nat) {
    k < |v.operations| && v.operations[k].phase.Waiting? && IsSettled(v.operations, v.operations[k].after)
  }

  /** The first stretch of a seal. */
  function Start(v: Vault, k: nat): Vault
    requires MayStart(v, k)
  {
    var op := v.operations[k];
    v.(operations := v.operations[k := op.(phase := Sealing(v.session.(document := op.document), v.envelope))])
  }

  predicate IsSealing(v: Vault, k: nat) {
    k < |v.operations| && v.operations[k].phase.Sealing?
  }

  /** The second stretch, once the encryption has ended. */
  function Finish(v: Vault, k: nat, outcome: Outcome): Vault
    requires IsSealing(v, k)
  {
    var op := v.operations[k];
    var settled := v.(operations := v.operations[k := op.(phase := Settled(outcome))]);
    if !outcome.Stores? then settled
    else
      var nextEnvelope := Over(op.phase.against, op.phase.next.document);
      settled.(session := op.phase.next, envelope := nextEnvelope, stored := v.stored + [nextEnvelope])
  }

  function BeginClose(v: Vault): Vault {
    if !v.closePromise.NotClosed? then v else v.(closing := true, closePromise := ClosesAfter(v.pendingWrite))
  }

  predicate MayDestroy(v: Vault) {
    v.closePromise.ClosesAfter? && IsSettled(v.operations, v.closePromise.count)
  }

  /** What `close` does once the call that it waits for has settled. */
  function Destroy(v: Vault): Vault
    requires MayDestroy(v)
  {
    v.(closePromise := ClosedNow, destroyed := v.destroyed + [v.session])
  }

  datatype Event =
    | CallSeal(document: Document)
    | StartSeal(k: nat)
    | FinishSeal(k: nat, outcome: Outcome)
    | CallClose
    | AfterWrites

  function Step(v: Vault, e: Event): Vault {
    match e
    case CallSeal(document) => Accept(v, document).0
    case StartSeal(k) => if MayStart(v, k) then Start(v, k) else v
    case FinishSeal(k, outcome) => if IsSealing(v, k) then Finish(v, k, outcome) else v
    case CallClose => BeginClose(v)
    case AfterWrites => if MayDestroy(v) then Destroy(v) else v
  }

  function Run(v: Vault, events: seq<Event>): Vault {
    if events == [] then v else Step(Run(v, events[..|events| - 1]), events[|events| - 1])
  }

  /******* The reference definition *******/

  predicate Closed(events: seq<Event>) {
    CallClose in events
  }

  /** The documents whose seals are called before the vault is closed, in call order. */
  function Accepted(events: seq<Event>): seq<Document> {
    if events == [] then []
    else
      var before := events[..|events| - 1];
      var e := events[|events| - 1];
      Accepted(before) + if e.CallSeal? && !Closed(before) then [e.document] else []
  }

  function DocumentsOf(operations: seq<Operation>): (ds: seq<Document>)
    ensures |ds| == |operations| && forall k :: 0 <= k < |ds| ==> ds[k] == operations[k].document
  {
    seq(|operations|, k requires 0 <= k < |operations| => operations[k].document)
  }

  /** The successful calls in call order, each sealed over the envelope that was stored before it. */
  function SealInOrder(envelope: VaultEnvelope, operations: seq<Operation>): seq<VaultEnvelope> {
    if operations == [] then []
    else
      var n := |operations| - 1;
      var before := SealInOrder(envelope, operations[..n]);
      if operations[n].phase == Settled(Stores) then before + [Over(LastOf(envelope, before), operations[n].document)]
      else before
  }

  function LastOf(envelope: VaultEnvelope, stored: seq<VaultEnvelope>): VaultEnvelope {
    if stored == [] then envelope else stored[|stored| - 1]
  }

  function SessionAfter(session: Session, stored: seq<VaultEnvelope>): Session {
    if stored == [] || stored[|stored| - 1].Original? then session
    else session.(document := stored[|stored| - 1].document)
  }

  /******* One seal at a time *******/

  /** Each call waits for the one before it, so only the first that has not settled can be under
      way, and what it has read is still current. */
  ghost predicate OneAtATime(v: Vault) {
    && v.pendingWrite == |v.operations|
    && (forall k :: 0 <= k < |v.operations| ==> v.operations[k].after == k)
    && (forall j, k :: 0 <= j < k < |v.operations| && !v.operations[k].phase.Waiting? ==>
          v.operations[j].phase.Settled?)
    && (forall k :: 0 <= k < |v.operations| && v.operations[k].phase.Sealing? ==> ReadsCurrent(v, k))
  }

  predicate ReadsCurrent(v: Vault, k: nat)
    requires IsSealing(v, k)
  {
    var phase := v.operations[k].phase;
    phase.against == v.envelope && phase.next == v.session.(document := v.operations[k].document)
  }

  ghost predicate AllSettled(v: Vault) {
    forall k :: 0 <= k < |v.operations| ==> v.operations[k].phase.Settled?
  }

  /** Closing is one-way, and the session is destroyed with the closing, when all have settled. */
  ghost predicate ClosesOnce(v: Vault) {
    && (v.closing <==> !v.closePromise.NotClosed?)
    && (v.closePromise.ClosesAfter? ==> v.closePromise.count == |v.operations|)
    && (v.closePromise.ClosedNow? ==> AllSettled(v))
    && v.destroyed == if v.closePromise.ClosedNow? then [v.session] else []
  }

  ghost predicate Inv(v: Vault) {
    OneAtATime(v) && ClosesOnce(v)
  }

  lemma StartKeeps(v: Vault, k: nat)
    requires Inv(v) && MayStart(v, k)
    ensures Inv(Start(v, k))
  {
    assert forall j :: 0 <= j < k ==> v.operations[j].phase.Settled?;
  }

  lemma FinishKeeps(v: Vault, k: nat, outcome: Outcome)
    requires Inv(v) && IsSealing(v, k)
    ensures Inv(Finish(v, k, outcome))
  {
    assert forall j :: k < j < |v.operations| ==> v.operations[j].phase.Waiting?;
  }

  lemma DestroyKeeps(v: Vault)
    requires Inv(v) && MayDestroy(v)
    ensures AllSettled(v) && Inv(Destroy(v))
  {
  }

  lemma StepKeeps(v: Vault, e: Event)
    requires Inv(v)
    ensures Inv(Step(v, e))
  {
    match e
    case StartSeal(k) =>
      if MayStart(v, k) {
        StartKeeps(v, k);
      }
    case FinishSeal(k, outcome) =>
      if IsSealing(v, k) {
        FinishKeeps(v, k, outcome);
      }
    case AfterWrites =>
      if MayDestroy(v) {
        DestroyKeeps(v);
      }
    case _ =>
  }

  lemma {:induction false} RunKeeps(session: Session, envelope: VaultEnvelope, events: seq<Event>)
    ensures Inv(Run(Opened(session, envelope), events))
  {
    if events != [] {
      RunKeeps(session, envelope, events[..|events| - 1]);
      StepKeeps(Run(Opened(session, envelope), events[..|events| - 1]), events[|events| - 1]);
    }
  }

  /** In every run at most one seal is under way, whatever is called meanwhile, and the session and
      the envelope that it has read are still current when it finishes. */
  lemma SealsNeverOverlap(session: Session, envelope: VaultEnvelope, events: seq<Event>, j: nat, k: nat)
    ensures var v := Run(Opened(session, envelope), events);
      && (IsSealing(v, j) && IsSealing(v, k) ==> j == k)
      && (IsSealing(v, k) ==> ReadsCurrent(v, k) && forall i: nat :: !MayStart(v, i))
  {
    RunKeeps(session, envelope, events);
    var v := Run(Opened(session, envelope), events);
    assert forall i: nat :: i < |v.operations| ==> v.operations[i].after == i;
  }

  /** No call waits for ever: in every run the first call that has not settled is under way or may
      start, whether the one before it succeeded or failed. */
  lemma FirstUnsettledGoesOn(session: Session, envelope: VaultEnvelope, events: seq<Event>, k: nat)
    ensures var v := Run(Opened(session, envelope), events);
      && k < |v.operations| && !v.operations[k].phase.Settled?
      && (forall j :: 0 <= j < k ==> v.operations[j].phase.Settled?) ==>
      IsSealing(v, k) || (MayStart(v, k) && Step(v, StartSeal(k)) == Start(v, k))
  {
    RunKeeps(session, envelope, events);
  }

  /******* What is stored *******/

  /** The vault does what sealing in order does. */
  ghost predicate Refines(v: Vault, session: Session, envelope: VaultEnvelope, events: seq<Event>) {
    && v.closing == Closed(events)
    && DocumentsOf(v.operations) == Accepted(events)
    && v.stored == SealInOrder(envelope, v.operations)
    && v.envelope == LastOf(envelope, v.stored)
    && v.session == SessionAfter(session, v.stored)
    && (v.stored != [] ==> v.stored[|v.stored| - 1].Over?)
  }

  lemma AcceptedStep(events: seq<Event>, e: Event)
    ensures Closed(events + [e]) == (Closed(events) || e.CallClose?)
    ensures Accepted(events + [e]) ==
            if e.CallSeal? && !Closed(events) then Accepted(events) + [e.document] else Accepted(events)
  {
    assert (events + [e])[..|events|] == events;
    assert Accepted(events) + [] == Accepted(events);
  }

  /** Calls that have not been stored add nothing. */
  lemma {:induction false} UnstoredAddNothing(envelope: VaultEnvelope, operations: seq<Operation>, k: nat)
    requires k <= |operations|
    requires forall j :: k <= j < |operations| ==> operations[j].phase != Settled(Stores)
    ensures SealInOrder(envelope, operations) == SealInOrder(envelope, operations[..k])
  {
    if k < |operations| {
      var n := |operations| - 1;
      UnstoredAddNothing(envelope, operations[..n], k);
      assert operations[..n][..k] == operations[..k];
    } else {
      assert operations[..k] == operations;
    }
  }

  lemma OneMoreDocument(operations: seq<Operation>, op: Operation)
    ensures DocumentsOf(operations + [op]) == DocumentsOf(operations) + [op.document]
  {
  }

  lemma SealOneMore(envelope: VaultEnvelope, operations: seq<Operation>, op: Operation)
    ensures var before := SealInOrder(envelope, operations);
      SealInOrder(envelope, operations + [op]) ==
      if op.phase == Settled(Stores) then before + [Over(LastOf(envelope, before), op.document)] else before
  {
    assert (operations + [op])[..|operations|] == operations;
  }

  lemma AcceptRefines(v: Vault, session: Session, envelope: VaultEnvelope, events: seq<Event>, d: Document)
    requires Inv(v) && Refines(v, session, envelope, events)
    ensures Refines(Step(v, CallSeal(d)), session, envelope, events + [CallSeal(d)])
  {
    hide Inv, DocumentsOf, SealInOrder, Accepted, Closed;
    AcceptedStep(events, CallSeal(d));
    OneMoreDocument(v.operations, Operation(d, v.pendingWrite, Waiting));
    SealOneMore(envelope, v.operations, Operation(d, v.pendingWrite, Waiting));
  }

  lemma SamePhaseSameDocuments(operations: seq<Operation>, k: nat, phase: Phase)
    requires k < |operations|
    ensures DocumentsOf(operations[k := operations[k].(phase := phase)]) == DocumentsOf(operations)
  {
  }

  lemma StartStores(v: Vault, envelope: VaultEnvelope, k: nat)
    requires Inv(v) && MayStart(v, k)
    ensures SealInOrder(envelope, Start(v, k).operations) == SealInOrder(envelope, v.operations)
  {
    var after := Start(v, k).operations;
    assert forall j :: k < j < |v.operations| ==> v.operations[j].phase.Waiting?;
    hide SealInOrder;
    UnstoredAddNothing(envelope, v.operations, k);
    UnstoredAddNothing(envelope, after, k);
    assert after[..k] == v.operations[..k];
  }

  lemma StartRefines(v: Vault, session: Session, envelope: VaultEnvelope, events: seq<Event>, k: nat)
    requires Inv(v) && Refines(v, session, envelope, events) && MayStart(v, k)
    ensures Refines(Start(v, k), session, envelope, events + [StartSeal(k)])
  {
    hide Inv, DocumentsOf, SealInOrder, Accepted, Closed;
    AcceptedStep(events, StartSeal(k));
    StartStores(v, envelope, k);
    SamePhaseSameDocuments(v.operations, k, Start(v, k).operations[k].phase);
  }

  lemma FinishRefines(v: Vault, session: Session, envelope: VaultEnvelope, events: seq<Event>, k: nat, outcome: Outcome)
    requires Inv(v) && Refines(v, session, envelope, events) && IsSealing(v, k)
    ensures Refines(Finish(v, k, outcome), session, envelope, events + [FinishSeal(k, outcome)])
  {
    hide Inv, DocumentsOf, SealInOrder, Accepted, Closed;
    AcceptedStep(events, FinishSeal(k, outcome));
    FinishStores(v, envelope, k, outcome);
    SamePhaseSameDocuments(v.operations, k, Settled(outcome));
  }

  lemma FinishStores(v: Vault, envelope: VaultEnvelope, k: nat, outcome: Outcome)
    requires Inv(v) && IsSealing(v, k)
    ensures ReadsCurrent(v, k)
    ensures var before := SealInOrder(envelope, v.operations);
      SealInOrder(envelope, Finish(v, k, outcome).operations) ==
      if outcome.Stores? then before + [Over(LastOf(envelope, before), v.operations[k].document)] else before
  {
    var after := Finish(v, k, outcome).operations;
    assert forall j :: k < j < |v.operations| ==> v.operations[j].phase.Waiting?;
    assert ReadsCurrent(v, k);
    assert after == v.operations[k := v.operations[k].(phase := Settled(outcome))];
    assert after[..k + 1] == v.operations[..k] + [after[k]];
    hide SealInOrder, Inv, ReadsCurrent, Finish;
    UnstoredAddNothing(envelope, v.operations, k);
    UnstoredAddNothing(envelope, after, k + 1);
    SealOneMore(envelope, v.operations[..k], after[k]);
  }

  /** A step that leaves the calls and what is stored alone. */
  lemma IdleRefines(v: Vault, w: Vault, session: Session, envelope: VaultEnvelope, events: seq<Event>, e: Event)
    requires Refines(v, session, envelope, events) && !e.CallSeal?
    requires w.operations == v.operations && w.stored == v.stored && w.session == v.session && w.envelope == v.envelope
    requires w.closing == (v.closing || e.CallClose?)
    ensures Refines(w, session, envelope, events + [e])
  {
    AcceptedStep(events, e);
    hide DocumentsOf, SealInOrder, Accepted, Closed, LastOf, SessionAfter;
  }

  lemma StepRefines(v: Vault, session: Session, envelope: VaultEnvelope, events: seq<Event>, e: Event)
    requires Inv(v) && Refines(v, session, envelope, events)
    ensures Refines(Step(v, e), session, envelope, events + [e])
  {
    assert v.closing <==> !v.closePromise.NotClosed?;
    hide Inv, Refines, Start, Finish, MayStart, IsSealing, MayDestroy;
    match e
    case CallSeal(d) => AcceptRefines(v, session, envelope, events, d);
    case StartSeal(k) =>
      if MayStart(v, k) {
        StartRefines(v, session, envelope, events, k);
      } else {
        IdleRefines(v, v, session, envelope, events, e);
      }
    case FinishSeal(k, outcome) =>
      if IsSealing(v, k) {
        FinishRefines(v, session, envelope, events, k, outcome);
      } else {
        IdleRefines(v, v, session, envelope, events, e);
      }
    case _ => IdleRefines(v, Step(v, e), session, envelope, events, e);
  }

  /** Over every sequence of seals, failures and closes, with any call between the two stretches of
      a seal: what is stored are the successful documents in call order, each sealed against the
      one stored before it. */
  lemma {:induction false} QueueRefines(session: Session, envelope: VaultEnvelope, events: seq<Event>)
    ensures Refines(Run(Opened(session, envelope), events), session, envelope, events)
  {
    if events == [] {
      StartRefined(session, envelope);
    } else {
      var before, last := events[..|events| - 1], events[|events| - 1];
      var v := Run(Opened(session, envelope), before);
      assert Run(Opened(session, envelope), events) == Step(v, last);
      RunKeeps(session, envelope, before);
      assert events == before + [last];
      hide *;
      QueueRefines(session, envelope, before);
      StepRefines(v, session, envelope, before, last);
    }
  }

  lemma StartRefined(session: Session, envelope: VaultEnvelope)
    ensures Refines(Run(Opened(session, envelope), []), session, envelope, [])
  {
  }

  /******* Closing *******/

  /** A seal is accepted exactly if no close was called before it, and it then waits for its turn. */
  lemma AcceptsUntilClosed(session: Session, envelope: VaultEnvelope, events: seq<Event>, d: Document)
    ensures var v := Run(Opened(session, envelope), events);
      var (after, accepted) := Accept(v, d);
      && (accepted <==> CallClose !in events)
      && (accepted ==>
            DocumentsOf(after.operations) == Accepted(events) + [d] && after.operations[|v.operations|].phase.Waiting?)
      && after.stored == v.stored && after.session == v.session && after.envelope == v.envelope
  {
    QueueRefines(session, envelope, events);
    OneMoreDocument(Run(Opened(session, envelope), events).operations,
                    Operation(d, Run(Opened(session, envelope), events).pendingWrite, Waiting));
  }

  /** Once a close was called the vault refuses every seal, and no later step adds a call. */
  lemma ClosedRefuses(session: Session, envelope: VaultEnvelope, events: seq<Event>, d: Document, e: Event)
    requires CallClose in events
    ensures var v := Run(Opened(session, envelope), events);
      && Accept(v, d) == (v, false)
      && DocumentsOf(Step(v, e).operations) == DocumentsOf(v.operations)
  {
    QueueRefines(session, envelope, events);
    RunKeeps(session, envelope, events);
    StepRefines(Run(Opened(session, envelope), events), session, envelope, events, e);
    AcceptedStep(events, e);
  }

  /** The session is destroyed at most once, after a close, when every accepted seal has settled;
      it is the one that they left, and nothing happens after that. Once a close was called and
      every seal has settled, the next turn has destroyed it, and a further close changes nothing. */
  lemma DestroyedExactlyOnce(session: Session, envelope: VaultEnvelope, events: seq<Event>)
    ensures var v := Run(Opened(session, envelope), events);
      && |v.destroyed| <= 1
      && (v.destroyed != [] ==>
            && Closed(events) && AllSettled(v) && |v.operations| == |Accepted(events)|
            && v.destroyed == [SessionAfter(session, SealInOrder(envelope, v.operations))]
            && forall e :: Step(v, e) == v)
      && (Closed(events) && AllSettled(v) ==> Step(v, AfterWrites).destroyed == [v.session])
      && (Closed(events) ==> Step(v, CallClose) == v)
  {
    QueueRefines(session, envelope, events);
    RunKeeps(session, envelope, events);
    hide Run, Accepted, SealInOrder, SessionAfter, DocumentsOf;
  }

  /******* As the program keeps it *******/

  class UnlockedVault {
    var session: Session
    var envelope: VaultEnvelope
    var closing: bool
    var pendingWrite: nat
    var operations: seq<Operation>
    var closePromise: ClosePromise
    ghost var stored: seq<VaultEnvelope>
    ghost var destroyed: seq<Session>

    ghost function State(): Vault
      reads this
    {
      Vault(session, envelope, closing, pendingWrite, operations, closePromise, stored, destroyed)
    }

    constructor (initialSession: Session, initialEnvelope: VaultEnvelope)
      ensures State() == Opened(initialSession, initialEnvelope)
    {
      session, envelope, closing := initialSession, initialEnvelope, false;
      pendingWrite, operations, closePromise := 0, [], NotClosed;
      stored, destroyed := [], [];
    }

    method Seal(document: Document) returns (accepted: bool)
      modifies this
      ensures (State(), accepted) == Accept(old(State()), document)
    {
      if closing {
        return false;
      }
      operations := operations + [Operation(document, pendingWrite, Waiting)];
      pendingWrite := |operations|;
      return true;
    }

    /** From the settled promise of the call before to the encryption. */
    method StartSeal(k: nat)
      requires MayStart(State(), k)
      modifies this`operations
      ensures State() == Start(old(State()), k)
    {
      var nextSession := session.(document := operations[k].document);
      operations := operations[k := operations[k].(phase := Sealing(nextSession, envelope))];
    }

    /** From the end of the encryption to the settled promise. */
    method FinishSeal(k: nat, outcome: Outcome)
      requires IsSealing(State(), k)
      modifies this
      ensures State() == Finish(old(State()), k, outcome)
    {
      var phase := operations[k].phase;
      if outcome.Stores? {
        var nextEnvelope := Over(phase.against, phase.next.document);
        stored := stored + [nextEnvelope];
        session := phase.next;
        envelope := nextEnvelope;
      }
      operations := operations[k := operations[k].(phase := Settled(outcome))];
    }

    method Close()
      modifies this
      ensures State() == BeginClose(old(State()))
    {
      if !closePromise.NotClosed? {
        return;
      }
      closing := true;
      closePromise := ClosesAfter(pendingWrite);
    }

    method AfterWrites()
      requires MayDestroy(State())
      modifies this
      ensures State() == Destroy(old(State()))
    {
      destroyed := destroyed + [session];
      closePromise := ClosedNow;
    }
  }
}
