/** Exactly which transactions are accepted, said on the tables before them, and what revocation stops. */
module Acceptance {
  import opened Values
  import opened Events
  import opened Workflow
  import opened Histories
  import opened EventStore
  import opened Wallets
  import opened Governance
  import opened World
  import opened Guarantees
  import WorkflowRuns

  /** Accepted transactions are the ones that change the state. */
  ghost predicate Accepted(w: State, c: Ctx, tx: Tx) {
    Step(w, c, tx) != w
  }

  ghost predicate Fresh(w: State, c: Ctx) {
    c.txId != "" && c.txId !in w.used
  }

  lemma AcceptedIs(w: State, c: Ctx, tx: Tx)
    ensures Accepted(w, c, tx) <==> Fresh(w, c) && Attempt(w, c, tx).Some?
  {
  }

  // ---------------------------------------------------------------- a history goes on

  ghost predicate Word(ts: seq<EventType>) {
    ts <= PRODUCT_STEPS || CircularPrefix(ts)
  }

  /** A custody record is followed by valorization if some record of the lot is accepted, by custody if none is. */
  predicate CustodyNext(h: seq<Event>, t: EventType) {
    h != [] && h[|h| - 1].etype == ResidueCustody ==>
      t == if exists i :: 0 <= i < |h| && Accepts(h[i]) then Valorization else ResidueCustody
  }

  lemma AppendedTypes(h: seq<Event>, e: Event)
    requires Managed(e)
    ensures StepTypes(h + [e]) == StepTypes(h) + [e.etype]
    ensures StatusOf(h + [e]).valid <==> Word(StepTypes(h) + [e.etype])
    ensures StatusOf(h + [e]).valid ==> StatusOf(h).valid
  {
    assert (h + [e])[..|h|] == h;
    RecognisesStepLanguages(h + [e]);
    ValidIsLinked(h + [e]);
    ValidIsLinked(h);
    LinkedAppend(StepTypes(h), e.etype);
  }

  /** A step is admitted exactly when the types with it are a prefix of a step language and custody agrees. */
  lemma AdmitsExactly(h: seq<Event>, e: Event)
    requires AllManaged(h) && Managed(e)
    ensures Admits(StatusOf(h), e.etype) <==> Word(StepTypes(h) + [e.etype]) && CustodyNext(h, e.etype)
  {
    AppendedTypes(h, e);
    if Admits(StatusOf(h), e.etype) {
      AppendLast(h, e);
      if h != [] && h[|h| - 1].etype == ResidueCustody {
        AfterCustody(h, e.etype);
      }
    } else if StatusOf(h + [e]).valid && CustodyNext(h, e.etype) {
      ValidAdmits(h, e);
    }
  }

  lemma AppendLast(h: seq<Event>, e: Event)
    requires AllManaged(h) && Admits(StatusOf(h), e.etype)
    ensures StatusOf(h + [e]).valid
  {
    InsertValidIff(h, e, |h|);
    assert h[..|h|] + [e] + h[|h|..] == h + [e];
  }

  lemma ValidAdmits(h: seq<Event>, e: Event)
    requires AllManaged(h) && Managed(e) && StatusOf(h).valid && StatusOf(h + [e]).valid && CustodyNext(h, e.etype)
    ensures Admits(StatusOf(h), e.etype)
  {
    var ts, t, flow := StepTypes(h), e.etype, FirstFlow(h);
    AppendedTypes(h, e);
    ValidIsLinked(h + [e]);
    LinkedAppend(ts, t);
    FirstFlowIsFirstType(h);
    ManagedTypes(h);
    StepTables(t);
    if h != [] {
      LinkedFlow(h, flow);
      ReaderFollowsLinks(flow, h);
      ReaderBounds(flow, h);
      ReaderAccepted(flow, h);
      NextStepsFollow(flow, ReadAll(flow, h), ts[|ts| - 1], t);
      NextIsAdmitted(flow, ReadAll(flow, h), ts[|ts| - 1], t);
    }
  }

  lemma NextIsAdmitted(flow: Flow, r: Reader, x: EventType, t: EventType)
    requires flow == FlowOf(x) != Unknown && Follows(x, t) && r.current == StepIndex(x) < |Steps(flow)|
    requires x == ResidueCustody ==> t == if r.accepted then Valorization else ResidueCustody
    ensures t in NextSteps(flow, r) && FlowOf(t) == flow && r.current != |Steps(flow)| - 1
  {
  }

  lemma LinkedFlow(h: seq<Event>, flow: Flow)
    requires AllManaged(h) && h != [] && StatusOf(h).valid && flow == FirstFlow(h)
    ensures forall i :: 0 <= i < |h| ==> FlowOf(h[i].etype) == flow
    ensures !ReadAll(flow, h).broken
  {
    FirstFlowIsFirstType(h);
    ManagedTypes(h);
    ValidIsLinked(h);
    forall i | 0 <= i < |h| ensures FlowOf(h[i].etype) == flow { LinkedPosition(StepTypes(h), 0, i); }
    ReaderFollowsLinks(flow, h);
  }

  // -------------------------------------------------------------------- submissions

  /** What a role may submit. */
  function Submits(r: Role): set<EventType> {
    match r
    case Farmer => {Cultivation, Harvest}
    case Collector => {CollectionTransport, ResidueCustody}
    case Mill => {Milling, ResidueGeneration}
    case Laboratory => {LabVerification}
    case Bottler => {Bottling}
    case Distributor => {DistributionRetail, ReturnOrSale}
    case Retailer => {DistributionRetail, ConsumerVerification}
    case Processor => {ResidueCustody, Valorization, UsefulOutput, ReturnOrSale, EnvAccounting}
    case Consumer => {ConsumerVerification}
    case Authority => {EnvAccounting}
    case OrgAdmin => {}
  }

  lemma SubmitsIsPermitted(t: EventType, r: Role)
    ensures t in Submits(r) <==> t != Correction && !Governed(t) && r in Permitted(t)
    ensures t in Submits(r) ==> FlowOf(t) != Unknown || t == ConsumerVerification
  {
  }

  /** The wallet of the certificate has an active role that the certificate matches. */
  ghost predicate Bound(reg: Registry, c: Ctx) {
    && c.wallet != "" && ActiveAs(reg, c.wallet, c.clientHash)
    && reg.wallets[c.wallet].msp == Some(c.msp) && Some(reg.wallets[c.wallet].role) == c.role
  }

  /** The batch has been through milling, step by step. */
  ghost predicate Milled(s: EventStore.Store, batch: string) {
    batch != "" && PRODUCT_STEPS[..4] <= StepTypes(History(s, batch)) <= PRODUCT_STEPS
  }

  /** The event may come next in its subject's history. */
  ghost predicate ComesNext(s: EventStore.Store, t: EventType, subject: string, payload: Payload) {
    var h := History(s, subject);
    if t == ConsumerVerification then StepTypes(h) == PRODUCT_STEPS
    else
      && Word(StepTypes(h) + [t]) && CustodyNext(h, t)
      && (t in CIRCULAR_STEPS[1..] ==> AsString(Field(payload, "residue_id")) == subject)
      && (t == ResidueGeneration ==> Milled(s, AsString(Field(payload, "origin_batch"))))
  }

  lemma MilledIsReady(s: EventStore.Store, batch: string)
    ensures OriginReady(s, batch) <==> Milled(s, batch)
  {
    var h := History(s, batch);
    var ts := StepTypes(h);
    ValidIsLinked(h);
    FirstFlowIsFirstType(h);
    RecognisesStepLanguages(h);
    if ts != [] && FlowOf(ts[0]) == Product {
      LinkedProductIsPrefix(ts);
      if Linked(ts) {
        ProductPosition(ts, |ts| - 1);
      }
    }
  }

  lemma CompleteProduct(h: seq<Event>)
    ensures var s := StatusOf(h);
            s.started && s.flow == Product && s.complete <==> StepTypes(h) == PRODUCT_STEPS
  {
    ValidIsLinked(h);
    FirstFlowIsFirstType(h);
    RecognisesStepLanguages(h);
    StepTables(ResidueGeneration);
  }

  lemma LaterCircular(t: EventType)
    ensures t in CIRCULAR_STEPS[1..] <==> FlowOf(t) == Circular && t != ResidueGeneration
  {
    assert CIRCULAR_STEPS[1..] == [ResidueCustody, Valorization, UsefulOutput, ReturnOrSale, EnvAccounting];
  }

  /** The gate of a workflow step with its three conditions written out. */
  lemma ManagedGate(s: EventStore.Store, e: Event)
    requires Managed(e)
    ensures TransitionAccepted(s, e.etype, e.subject, e.payload) <==>
              var residue := AsString(Field(e.payload, "residue_id"));
              && (FlowOf(e.etype) == Circular && e.etype != ResidueGeneration ==>
                    residue != "" && residue == e.subject)
              && (e.etype == ResidueGeneration ==> OriginReady(s, AsString(Field(e.payload, "origin_batch"))))
              && Admits(StatusOf(History(s, e.subject)), e.etype)
  {
  }

  lemma GateExactly(s: EventStore.Store, e: Event)
    requires KeysMatch(s) && e.subject != "" && (Managed(e) || e.etype == ConsumerVerification)
    ensures TransitionAccepted(s, e.etype, e.subject, e.payload) <==> ComesNext(s, e.etype, e.subject, e.payload)
  {
    if Managed(e) {
      HistoryFacts(s, e.subject);
      ManagedGate(s, e);
      LaterCircular(e.etype);
      MilledIsReady(s, AsString(Field(e.payload, "origin_batch")));
      AdmitsExactly(History(s, e.subject), e);
    } else {
      CompleteProduct(History(s, e.subject));
    }
  }

  lemma BoundIs(reg: Registry, c: Ctx)
    requires RegistryInv(reg) && Caller(c).Some?
    ensures ActiveBinding(reg, Caller(c).value) <==> Bound(reg, c)
  {
  }

  /** A submission is accepted exactly when its transaction is new, its certificate holds a role that its
      organisation may hold and that may submit the type, that role is active for the wallet under this very
      certificate (or it is a consumer's verification without a wallet), the payload is accepted, the event
      may come next in its subject's history, and its id is new. */
  lemma SubmitExactly(w: State, c: Ctx, tx: Tx)
    requires Inv(w) && tx.SubmitEvent?
    ensures Accepted(w, c, tx) <==>
              && Fresh(w, c)
              && c.role.Some? && c.role.value in MspRoles(c.msp) && tx.etype in Submits(c.role.value)
              && (Bound(w.registry, c)
                  || (tx.etype == ConsumerVerification && c.role == Some(Consumer) && c.wallet == ""))
              && tx.subject != "" && PayloadAccepted(tx.etype, tx.payload)
              && ComesNext(w.store, tx.etype, tx.subject, tx.payload)
              && (if tx.eventId == "" then c.txId else tx.eventId) !in w.store.events
  {
    AcceptedIs(w, c, tx);
    if Caller(c).Some? {
      var caller := Caller(c).value;
      BoundIs(w.registry, c);
      SubmitsIsPermitted(tx.etype, caller.role);
      SubmitGate(w, c, tx, caller);
    }
  }

  lemma SubmitGate(w: State, c: Ctx, tx: Tx, caller: Identity)
    requires Inv(w) && tx.SubmitEvent? && Caller(c) == Some(caller)
    ensures Attempt(w, c, tx).Some? <==>
              && tx.etype in Submits(caller.role)
              && (ActiveBinding(w.registry, caller)
                  || (tx.etype == ConsumerVerification && caller.role == Consumer && caller.wallet == ""))
              && tx.subject != "" && PayloadAccepted(tx.etype, tx.payload)
              && ComesNext(w.store, tx.etype, tx.subject, tx.payload)
              && (if tx.eventId == "" then c.txId else tx.eventId) !in w.store.events
  {
    SubmitsIsPermitted(tx.etype, caller.role);
    if tx.etype in Submits(caller.role) && tx.subject != "" {
      GateExactly(w.store, NewEvent(c, caller, tx.etype, tx.subject, tx.payload, tx.eventId));
    }
  }

  /** An accepted submission adds one event, with the submitted contents and the certificate's identity. */
  lemma SubmitStores(w: State, c: Ctx, tx: Tx)
    requires tx.SubmitEvent? && Accepted(w, c, tx)
    ensures c.role.Some?
    ensures var id := if tx.eventId == "" then c.txId else tx.eventId;
            var org := if c.org.Some? then c.org.value else MspName(c.msp);
            Step(w, c, tx).store.events == w.store.events[id :=
              Event(id, tx.etype, tx.subject, org, c.msp, c.role.value, c.wallet, c.clientHash, c.seconds, c.nanos,
                    tx.payload)]
  {
    AcceptedIs(w, c, tx);
    StepIs(w, c, tx);
    WorkflowRuns.AcceptedShape(w, c, tx);
  }

  lemma CorrectGate(w: State, c: Ctx, tx: Tx, caller: Identity)
    requires tx.CorrectEvent? && Caller(c) == Some(caller)
    ensures Attempt(w, c, tx).Some? <==>
              && ActiveBinding(w.registry, caller)
              && tx.target in w.store.events && tx.target !in w.store.supersede
              && w.store.events[tx.target].subject != ""
              && w.store.events[tx.target].actorMsp == caller.msp
              && w.store.events[tx.target].actorRole == caller.role
              && (if tx.eventId == "" then c.txId else tx.eventId) !in w.store.events
  {
    assert RequiredFields(Correction) <= CorrectionPayload(tx.target, tx.reason, tx.patch).Keys;
  }

  /** A correction is accepted exactly when its transaction is new, its certificate is bound to a wallet's active
      role, its target is stored, not yet superseded and by the same organisation and role, and its id is new. */
  lemma CorrectExactly(w: State, c: Ctx, tx: Tx)
    requires Inv(w) && tx.CorrectEvent?
    ensures Accepted(w, c, tx) <==>
              && Fresh(w, c)
              && c.role.Some? && c.role.value in MspRoles(c.msp) && Bound(w.registry, c)
              && tx.target in w.store.events && tx.target !in w.store.supersede
              && w.store.events[tx.target].subject != ""
              && w.store.events[tx.target].actorMsp == c.msp && w.store.events[tx.target].actorRole == c.role.value
              && (if tx.eventId == "" then c.txId else tx.eventId) !in w.store.events
  {
    AcceptedIs(w, c, tx);
    if Caller(c).Some? {
      BoundIs(w.registry, c);
      CorrectGate(w, c, tx, Caller(c).value);
    }
  }

  // ---------------------------------------------------------------------- inactivity

  ghost predicate Inactive(reg: Registry, a: string) {
    forall h :: !ActiveAs(reg, a, h)
  }

  /** While a wallet has no active role, no event is stored in its name. */
  lemma InactiveWritesNothing(w: State, c: Ctx, tx: Tx, a: string, id: string)
    requires Inv(w) && a != "" && Inactive(w.registry, a)
    requires id in Step(w, c, tx).store.events && Step(w, c, tx).store.events[id].actorWallet == a
    ensures id in w.store.events
  {
    if id !in w.store.events {
      StepIs(w, c, tx);
      WorkflowRuns.AcceptedShape(w, c, tx);
      if tx.SubmitEvent? {
        SubmitExactly(w, c, tx);
      } else if tx.CorrectEvent? {
        CorrectExactly(w, c, tx);
      }
    }
  }

  /** The transaction gives the wallet a role. */
  predicate Gives(reg: Registry, tx: Tx, a: string) {
    || (tx.GrantWalletRole? && tx.address == a)
    || (tx.ApproveWalletRole? && tx.requestId in reg.requests && reg.requests[tx.requestId].wallet == a)
  }

  /** No other transaction makes a wallet active. */
  lemma OnlyGrantsActivate(w: State, c: Ctx, tx: Tx, a: string)
    requires Inactive(w.registry, a) && !(Accepted(w, c, tx) && Gives(w.registry, tx, a))
    ensures Inactive(Step(w, c, tx).registry, a)
  {
    AcceptedIs(w, c, tx);
    StepIs(w, c, tx);
    InactiveIs(w.registry, a);
    InactiveIs(Step(w, c, tx).registry, a);
    if Accepted(w, c, tx) {
      ActiveOnlyByGrant(w, c, tx, a);
    }
  }

  lemma InactiveIs(reg: Registry, a: string)
    ensures Inactive(reg, a) <==> !(a in reg.wallets && reg.wallets[a].status == Active)
  {
    if a in reg.wallets && reg.wallets[a].status == Active {
      assert ActiveAs(reg, a, reg.wallets[a].clientHash);
    }
  }

  lemma ActiveOnlyByGrant(w: State, c: Ctx, tx: Tx, a: string)
    requires Attempt(w, c, tx).Some? && !Gives(w.registry, tx, a)
    ensures var reg, next := w.registry, Attempt(w, c, tx).value.registry;
            a in next.wallets && next.wallets[a].status == Active ==>
              a in reg.wallets && reg.wallets[a].status == Active
  {
  }

  ghost predicate NeverGiven(w: State, txs: Script, a: string) {
    txs != [] ==>
      var front, last := txs[..|txs| - 1], txs[|txs| - 1];
      && NeverGiven(w, front, a)
      && !(Accepted(Run(w, front), last.0, last.1) && Gives(Run(w, front).registry, last.1, a))
  }

  lemma {:induction false} StaysInactive(w: State, txs: Script, a: string)
    requires Inv(w) && a != "" && Inactive(w.registry, a) && NeverGiven(w, txs, a)
    ensures Inactive(Run(w, txs).registry, a)
    ensures forall id :: id in Run(w, txs).store.events && Run(w, txs).store.events[id].actorWallet == a ==>
              id in w.store.events
  {
    if txs != [] {
      var front, last := txs[..|txs| - 1], txs[|txs| - 1];
      var before := Run(w, front);
      StaysInactive(w, front, a);
      RunKeeps(w, front);
      OnlyGrantsActivate(before, last.0, last.1, a);
      forall id | id in Run(w, txs).store.events && Run(w, txs).store.events[id].actorWallet == a
        ensures id in w.store.events
      {
        InactiveWritesNothing(before, last.0, last.1, a, id);
        StepKeeps(before, last.0, last.1);
      }
    }
  }

  /** After a revocation, whatever follows, the wallet stays without a role and no event is stored in its name
      until it is granted a role again. */
  lemma RevokedWritesNothing(txs: Script, c: Ctx, more: Script, a: string)
    requires a != "" && Accepted(Run(GENESIS, txs), c, RevokeWalletRole(a))
    requires NeverGiven(Step(Run(GENESIS, txs), c, RevokeWalletRole(a)), more, a)
    ensures var last := Run(Step(Run(GENESIS, txs), c, RevokeWalletRole(a)), more);
            && Inactive(last.registry, a)
            && forall id :: id in last.store.events && last.store.events[id].actorWallet == a ==>
                 id in Run(GENESIS, txs).store.events
  {
    Reached(txs);
    RevocationEnds(Run(GENESIS, txs), c, a);
    StaysInactive(Step(Run(GENESIS, txs), c, RevokeWalletRole(a)), more, a);
  }

  lemma RevocationEnds(w: State, c: Ctx, a: string)
    requires Inv(w) && Accepted(w, c, RevokeWalletRole(a))
    ensures var next := Step(w, c, RevokeWalletRole(a));
            Inv(next) && Inactive(next.registry, a) && next.store == w.store
  {
    StepIs(w, c, RevokeWalletRole(a));
    StepKeeps(w, c, RevokeWalletRole(a));
    RevokedAfter(w, c, a);
    InactiveIs(Step(w, c, RevokeWalletRole(a)).registry, a);
  }

  lemma RevokedAfter(w: State, c: Ctx, a: string)
    requires Attempt(w, c, RevokeWalletRole(a)).Some?
    ensures var next := Attempt(w, c, RevokeWalletRole(a)).value;
            a in next.registry.wallets && next.registry.wallets[a].status == Revoked && next.store == w.store
  {
  }

  // ------------------------------------------------------------------ one table at a time

  /** Event transactions leave wallets alone, and only finalizing touches a proposal; wallet transactions leave
      events and proposals alone; proposing and approving leave everything but proposals alone. */
  lemma TablesTouched(w: State, c: Ctx, tx: Tx)
    ensures var next := Step(w, c, tx);
            && (tx.SubmitEvent? || tx.CorrectEvent? ==> next.registry == w.registry && next.proposals == w.proposals)
            && (tx.FinalizeProposal? ==> next.registry == w.registry)
            && (tx.ProposeEvent? || tx.ApproveProposal? ==>
                  next.store == w.store && next.registry == w.registry && next.book == w.book)
            && (tx.RegisterWallet? || tx.RequestWalletRole? || tx.ApproveWalletRole? || tx.RejectWalletRole?
                || tx.GrantWalletRole? || tx.RevokeWalletRole? ==>
                  next.store == w.store && next.proposals == w.proposals)
  {
    StepIs(w, c, tx);
  }
}
