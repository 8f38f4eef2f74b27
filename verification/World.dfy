/** The whole world state, its transactions, and what every run of them keeps. */
module World {
  import opened Values
  import opened Events
  import opened Workflow
  import opened Histories
  import opened EventStore
  import opened Wallets
  import opened Tokens
  import opened Governance

  /** `used` holds the ids of committed transactions; the platform commits no id twice. */
  datatype State = State(store: EventStore.Store, registry: Registry, book: Book, proposals: Proposals,
                         used: set<string>)

  const GENESIS := State(EventStore.EMPTY, Wallets.EMPTY, EMPTY_BOOK, map[], {})

  datatype Tx =
    | SubmitEvent(eventId: string, etype: EventType, subject: string, payload: Payload)
    | CorrectEvent(eventId: string, target: string, reason: string, patch: Payload)
    | RegisterWallet(address: string, derived: Option<string>, name: string)
    | RequestWalletRole(address: string, role: Role)
    | ApproveWalletRole(requestId: string, clientHash: string, alias: string)
    | RejectWalletRole(requestId: string, reason: string)
    | GrantWalletRole(address: string, role: Role, clientHash: string, alias: string)
    | RevokeWalletRole(address: string)
    | ProposeEvent(proposalId: string, etype: EventType, subject: string, payload: Payload)
    | ApproveProposal(proposalId: string)
    | FinalizeProposal(proposalId: string, eventId: string)

  /** The gate of every event write. */
  ghost predicate TransitionAccepted(s: EventStore.Store, t: EventType, subject: string, payload: Payload) {
    if t == Correction || Governed(t) then true
    else
      var status := StatusOf(History(s, subject));
      if t == ConsumerVerification then status.started && status.flow == Product && status.complete
      else
        && (FlowOf(t) == Circular && t != ResidueGeneration ==>
              AsString(Field(payload, "residue_id")) != "" && AsString(Field(payload, "residue_id")) == subject)
        && (t == ResidueGeneration ==> OriginReady(s, AsString(Field(payload, "origin_batch"))))
        && Admits(status, t)
  }

  /** The batch is in its product flow and has reached milling. */
  ghost predicate OriginReady(s: EventStore.Store, batch: string) {
    && batch != ""
    && var status := StatusOf(History(s, batch));
       status.started && status.flow == Product && status.stepNumber >= StepIndex(Milling) + 1
  }

  function NewEvent(c: Ctx, actor: Identity, t: EventType, subject: string, payload: Payload, eventId: string): Event {
    Event(EventId(c, eventId), t, subject, actor.orgId, actor.msp, actor.role, actor.wallet,
          actor.clientHash, c.seconds, c.nanos, payload)
  }

  ghost function WriteEvent(w: State, c: Ctx, actor: Identity, t: EventType, subject: string, payload: Payload,
                            eventId: string): Option<State> {
    var e := NewEvent(c, actor, t, subject, payload, eventId);
    if subject == "" || !PayloadAccepted(t, payload) || !TransitionAccepted(w.store, t, subject, payload)
        || e.id in w.store.events then None
    else
      var after := Put(w.store, e);
      Some(w.(store := after,
              book := ApplyIncentives(Begin(w.book, c.readsOwnWrites), c.txId, w.registry,
                                      if c.readsOwnWrites then after else w.store, e).written))
  }

  const AUTHORITY_ORG := "consortium-authority"

  function CorrectionPayload(target: string, reason: string, patch: Payload): Payload {
    map["supersedes_event" := JText(target), "reason" := JText(reason), "corrected_payload" := JObject(patch, "")]
  }

  ghost function AfterRegistry(w: State, r: Option<Registry>): Option<State> {
    if r.None? then None else Some(w.(registry := r.value))
  }

  /** A grant also brings the wallet's trust to the verified base. */
  ghost function AfterGrant(w: State, c: Ctx, r: Option<Registry>, address: string): Option<State> {
    if r.None? then None
    else
      var book := InitializeTrust(Begin(w.book, c.readsOwnWrites), c.txId, address).written;
      Some(w.(registry := r.value, book := book))
  }

  ghost function Submit(w: State, c: Ctx, caller: Identity, eventId: string, t: EventType, subject: string,
                        payload: Payload): Option<State> {
    if t == Correction || Governed(t) || caller.role !in Permitted(t) then None
    else if !(t == ConsumerVerification && caller.role == Consumer && caller.wallet == "")
        && !ActiveBinding(w.registry, caller) then None
    else WriteEvent(w, c, caller, t, subject, payload, eventId)
  }

  function EventId(c: Ctx, eventId: string): string {
    if eventId == "" then c.txId else eventId
  }

  ghost function Correct(w: State, c: Ctx, caller: Identity, eventId: string, target: string, reason: string,
                         patch: Payload): Option<State> {
    if !ActiveBinding(w.registry, caller) || target !in w.store.events then None
    else
      var e := w.store.events[target];
      if e.actorMsp != caller.msp || e.actorRole != caller.role then None
      else
        var next := WriteEvent(w, c, caller, Correction, e.subject, CorrectionPayload(target, reason, patch), eventId);
        if next.None? || target in w.store.supersede then None
        else Some(next.value.(store := Supersede(next.value.store, target, EventId(c, eventId))))
  }

  ghost function OpenWallet(w: State, c: Ctx, address: string, derived: Option<string>, name: string): Option<State> {
    var r := Register(w.registry, address, derived, name);
    if r.None? then None
    else Some(w.(registry := r.value, book := Ensure(Begin(w.book, c.readsOwnWrites), address).written))
  }

  function RequestedWallet(reg: Registry, requestId: string): string {
    if requestId in reg.requests then reg.requests[requestId].wallet else ""
  }

  ghost function AfterProposals(w: State, p: Option<Proposals>): Option<State> {
    if p.None? then None else Some(w.(proposals := p.value))
  }

  ghost function Finalize(w: State, c: Ctx, caller: Identity, id: string, eventId: string): Option<State> {
    if caller.role != OrgAdmin || id !in w.proposals then None
    else
      var p := w.proposals[id];
      if p.finalEvent.Some? || |Approvers(p.approvals)| < THRESHOLD || !FinalCheck(w.store, p) then None
      else
        var next := WriteEvent(w, c, AuthorityOf(caller), p.etype, p.subject, p.payload, eventId);
        if next.None? then None
        else Some(next.value.(proposals := w.proposals[id := p.(finalEvent := Some(EventId(c, eventId)))]))
  }

  /** Governed events are written in the name of the consortium. */
  function AuthorityOf(caller: Identity): Identity {
    Identity(ConsortiumMsp, Authority, "", caller.clientHash, AUTHORITY_ORG)
  }

  ghost function Attempt(w: State, c: Ctx, tx: Tx): Option<State> {
    if Caller(c).None? then None else
    var caller := Caller(c).value;
    match tx
    case SubmitEvent(eventId, t, subject, payload) => Submit(w, c, caller, eventId, t, subject, payload)
    case CorrectEvent(eventId, target, reason, patch) => Correct(w, c, caller, eventId, target, reason, patch)
    case RegisterWallet(address, derived, name) => OpenWallet(w, c, address, derived, name)
    case RequestWalletRole(address, role) => AfterRegistry(w, RequestRole(w.registry, address, role, c.txId))
    case ApproveWalletRole(requestId, clientHash, alias) =>
      AfterGrant(w, c, ApproveRequest(w.registry, caller, c.org, requestId, clientHash, alias),
                 RequestedWallet(w.registry, requestId))
    case RejectWalletRole(requestId, reason) =>
        AfterRegistry(w, RejectRequest(w.registry, caller, c.org, requestId, reason))
    case GrantWalletRole(address, role, clientHash, alias) =>
      AfterGrant(w, c, GrantRole(w.registry, caller, c.org, address, role, clientHash, alias), address)
    case RevokeWalletRole(address) => AfterRegistry(w, RevokeRole(w.registry, caller, address))
    case ProposeEvent(id, t, subject, payload) =>
        AfterProposals(w, Propose(w.proposals, caller, id, t, subject, payload))
    case ApproveProposal(id) => AfterProposals(w, Approve(w.proposals, caller, id))
    case FinalizeProposal(id, eventId) => Finalize(w, c, caller, id, eventId)
  }

  /** What is re-checked when a proposal is finalized. */
  ghost predicate FinalCheck(s: EventStore.Store, p: Proposal) {
    match p.etype
    case RewardIssued => RewardAllowed(s, p.payload)
    case ReviewFlag => AsString(Field(p.payload, "subject_event")) in s.events
    case ReviewResolution =>
      var flag := AsString(Field(p.payload, "flag_event"));
      flag in s.events && s.events[flag].etype == ReviewFlag
    case _ => true
  }

  function Used(w: State, c: Ctx): State {
    w.(used := w.used + {c.txId})
  }

  /** One transaction: a rejected one leaves the state as it is. */
  ghost function Step(w: State, c: Ctx, tx: Tx): State {
    if c.txId == "" || c.txId in w.used then w
    else
      var next := Attempt(w, c, tx);
      if next.None? then w else Used(next.value, c)
  }

  lemma CommittedStep(w: State, c: Ctx, tx: Tx)
    requires c.txId != "" && c.txId !in w.used
    ensures Attempt(w, c, tx).None? ==> Step(w, c, tx) == w
    ensures Attempt(w, c, tx).Some? ==> Step(w, c, tx) == Used(Attempt(w, c, tx).value, c)
  {
  }

  ghost function Run(w: State, txs: seq<(Ctx, Tx)>): State {
    if txs == [] then w else Step(Run(w, txs[..|txs| - 1]), txs[|txs| - 1].0, txs[|txs| - 1].1)
  }

  // -------------------------------------------------------------------- invariant

  ghost predicate RequestsSourced(reg: Registry, used: set<string>) {
    forall t :: RequestId(t) in reg.requests ==> t in used
  }

  /** Every table is consistent in itself and with the others. */
  ghost predicate Inv(w: State) {
    && StoreInv(w.store)
    && RegistryInv(w.registry) && RequestsSourced(w.registry, w.used)
    && BookInv(w.book, w.used, w.store.events.Keys) && ActiveTrusted(w.book, w.registry)
    && ProposalsMatch(w.proposals, w.store) && GovernedFinal(w.store) && RewardsMatch(w.store)
  }

  /** What no later transaction can undo. */
  ghost predicate Kept(w: State, next: State) {
    && StoreKept(w.store, next.store)
    && DecisionsKept(w.registry, next.registry)
    && TrustKept(w.book, next.book)
    && ProposalsKept(w.proposals, next.proposals)
  }

  ghost predicate StoreKept(s: EventStore.Store, next: EventStore.Store) {
    && (forall id :: id in s.events ==> id in next.events && next.events[id] == s.events[id])
    && (forall id :: id in s.supersede ==> id in next.supersede && next.supersede[id] == s.supersede[id])
  }

  lemma RequestIdInjective(t: string, u: string)
    requires RequestId(t) == RequestId(u)
    ensures t == u
  {
    assert RequestId(t)[4..] == t && RequestId(u)[4..] == u;
  }

  lemma CallerIsBusiness(c: Ctx)
    requires Caller(c).Some?
    ensures BusinessMsp(Caller(c).value.msp) && Caller(c).value.msp != ConsortiumMsp
  {
  }

  lemma NotSuperseded(s: EventStore.Store, id: string)
    requires StoreInv(s) && id !in s.events
    ensures id !in s.supersede
  {
  }

  /** Writing an event keeps the wallet book and the event tables, apart from what its kind adds. */
  lemma WriteKeepsBook(w: State, c: Ctx, actor: Identity, t: EventType, subject: string, payload: Payload,
                       eventId: string)
    requires Inv(w) && c.txId !in w.used && WriteEvent(w, c, actor, t, subject, payload, eventId).Some?
    ensures var next := WriteEvent(w, c, actor, t, subject, payload, eventId).value;
            && BookInv(next.book, w.used + {c.txId}, next.store.events.Keys) && ActiveTrusted(next.book, w.registry)
            && TrustKept(w.book, next.book)
  {
    var e := NewEvent(c, actor, t, subject, payload, eventId);
    var after := Put(w.store, e);
    var seen := if c.readsOwnWrites then after else w.store;
    WrittenParts(w, c, actor, t, subject, payload, eventId);
    IncentivesKeep(w.book, c.readsOwnWrites, c.txId, w.registry, seen, e, w.used, w.store.events.Keys);
    assert after.events.Keys == w.store.events.Keys + {e.id};
  }

  lemma WrittenParts(w: State, c: Ctx, actor: Identity, t: EventType, subject: string, payload: Payload,
                     eventId: string)
    requires WriteEvent(w, c, actor, t, subject, payload, eventId).Some?
    ensures var next, e := WriteEvent(w, c, actor, t, subject, payload, eventId).value,
                           NewEvent(c, actor, t, subject, payload, eventId);
            var seen := if c.readsOwnWrites then Put(w.store, e) else w.store;
            && next.store == Put(w.store, e)
            && next.book == ApplyIncentives(Begin(w.book, c.readsOwnWrites), c.txId, w.registry, seen, e).written
  {
  }

  /** The parts of the invariant put together, for a step that leaves the registry alone. */
  lemma EventStepKeeps(w: State, next: State, c: Ctx)
    requires Inv(w) && next.registry == w.registry && next.used == w.used
    requires TablesMatch(next.store, next.proposals) && StoreKept(w.store, next.store)
    requires ProposalsKept(w.proposals, next.proposals)
    requires BookInv(next.book, w.used + {c.txId}, next.store.events.Keys)
    requires ActiveTrusted(next.book, w.registry) && TrustKept(w.book, next.book)
    ensures Inv(Used(next, c)) && Kept(w, Used(next, c))
  {
  }

  lemma SubmitKeeps(w: State, c: Ctx, caller: Identity, eventId: string, t: EventType, subject: string,
                    payload: Payload)
    requires Inv(w) && c.txId !in w.used && Submit(w, c, caller, eventId, t, subject, payload).Some?
    ensures var next := Submit(w, c, caller, eventId, t, subject, payload).value;
            Inv(Used(next, c)) && Kept(w, Used(next, c))
  {
    var e := NewEvent(c, caller, t, subject, payload, eventId);
    var next := Submit(w, c, caller, eventId, t, subject, payload).value;
    WriteKeepsBook(w, c, caller, t, subject, payload, eventId);
    PlainTablesKeep(w.store, w.proposals, e);
    EventStepKeeps(w, next, c);
  }

  /** The event and proposal tables, consistent with each other. */
  ghost predicate TablesMatch(s: EventStore.Store, ps: Proposals) {
    StoreInv(s) && ProposalsMatch(ps, s) && GovernedFinal(s) && RewardsMatch(s)
  }

  lemma PlainTablesKeep(s: EventStore.Store, ps: Proposals, e: Event)
    requires TablesMatch(s, ps) && e.id !in s.events && e.etype != Correction && !Governed(e.etype)
    ensures TablesMatch(Put(s, e), ps) && StoreKept(s, Put(s, e)) && ProposalsKept(ps, ps)
  {
    NotSuperseded(s, e.id);
    PutKeepsInv(s, e);
    PlainEventKeepsProposals(ps, s, e);
    PlainEventKeepsRewards(s, e);
  }

  lemma CorrectedTablesKeep(s: EventStore.Store, ps: Proposals, e: Event, target: string)
    requires TablesMatch(s, ps) && e.id !in s.events && e.etype == Correction && Target(e) == target
    requires Patch(e).JObject?
    requires target in s.events && target !in s.supersede && s.events[target].actorMsp != ConsortiumMsp
    ensures TablesMatch(Supersede(Put(s, e), target, e.id), ps)
  {
    var t := Supersede(Put(s, e), target, e.id);
    CorrectedStoreKeeps(s, e, target, t);
    CorrectedRestKeeps(s, ps, e, target, t);
  }

  lemma CorrectedStoreKeeps(s: EventStore.Store, e: Event, target: string, t: EventStore.Store)
    requires StoreInv(s) && e.id !in s.events && e.etype == Correction && Target(e) == target && Patch(e).JObject?
    requires target in s.events && target !in s.supersede && t == Supersede(Put(s, e), target, e.id)
    ensures StoreInv(t)
  {
    CorrectKeepsInv(s, e, target);
  }

  lemma CorrectedRestKeeps(s: EventStore.Store, ps: Proposals, e: Event, target: string, t: EventStore.Store)
    requires TablesMatch(s, ps) && e.id !in s.events && e.etype == Correction
    requires target in s.events && s.events[target].actorMsp != ConsortiumMsp && t == Supersede(Put(s, e), target, e.id)
    ensures ProposalsMatch(ps, t) && GovernedFinal(t) && RewardsMatch(t)
  {
    NotSuperseded(s, e.id);
    CorrectedGovernedKeep(s, ps, e, target);
  }

  lemma CorrectedKept(s: EventStore.Store, e: Event, target: string)
    requires e.id !in s.events && target !in s.supersede
    ensures StoreKept(s, Supersede(Put(s, e), target, e.id))
  {
  }

  lemma CorrectedGovernedKeep(s: EventStore.Store, ps: Proposals, e: Event, target: string)
    requires ProposalsMatch(ps, s) && GovernedFinal(s) && RewardsMatch(s)
    requires e.id !in s.events && e.id !in s.supersede && !Governed(e.etype)
    requires target in s.events && s.events[target].actorMsp != ConsortiumMsp
    ensures var t := Supersede(Put(s, e), target, e.id); ProposalsMatch(ps, t) && GovernedFinal(t) && RewardsMatch(t)
  {
    PlainEventKeepsProposals(ps, s, e);
    PlainEventKeepsRewards(s, e);
    SupersedeKeepsGoverned(ps, Put(s, e), target, e.id);
  }

  lemma FinalizedTablesKeep(s: EventStore.Store, ps: Proposals, e: Event, id: string)
    requires TablesMatch(s, ps) && e.id !in s.events && e.actorMsp == ConsortiumMsp
    requires id in ps && ps[id].finalEvent.None? && |Approvers(ps[id].approvals)| >= THRESHOLD
    requires e.etype == ps[id].etype && e.subject == ps[id].subject && e.payload == ps[id].payload
    requires e.etype == RewardIssued ==> RewardAllowed(s, e.payload)
    ensures TablesMatch(Put(s, e), ps[id := ps[id].(finalEvent := Some(e.id))]) && StoreKept(s, Put(s, e))
  {
    assert ApprovalsMatch(ps[id]);
    FinalizeKeepsProposals(ps, s, e, id);
    GovernedPutKeeps(s, e);
  }

  lemma FinalizedKept(ps: Proposals, id: string, event: string)
    requires id in ps && ps[id].finalEvent.None?
    ensures ProposalsKept(ps, ps[id := ps[id].(finalEvent := Some(event))])
  {
  }

  lemma GovernedPutKeeps(s: EventStore.Store, e: Event)
    requires StoreInv(s) && GovernedFinal(s) && RewardsMatch(s) && e.id !in s.events
    requires Governed(e.etype) && e.actorMsp == ConsortiumMsp
    requires e.etype == RewardIssued ==> RewardAllowed(s, e.payload)
    ensures StoreInv(Put(s, e)) && GovernedFinal(Put(s, e)) && RewardsMatch(Put(s, e)) && StoreKept(s, Put(s, e))
  {
    NotSuperseded(s, e.id);
    PutKeepsInv(s, e);
    GovernedEventKeeps(s, e);
  }

  lemma CorrectKeeps(w: State, c: Ctx, caller: Identity, eventId: string, target: string, reason: string,
                     patch: Payload)
    requires Inv(w) && c.txId !in w.used && caller.msp != ConsortiumMsp
    requires Correct(w, c, caller, eventId, target, reason, patch).Some?
    ensures var next := Correct(w, c, caller, eventId, target, reason, patch).value;
            Inv(Used(next, c)) && Kept(w, Used(next, c))
  {
    var subject, payload := w.store.events[target].subject, CorrectionPayload(target, reason, patch);
    var e := NewEvent(c, caller, Correction, subject, payload, eventId);
    CorrectShape(w, c, caller, eventId, target, reason, patch);
    WriteKeepsBook(w, c, caller, Correction, subject, payload, eventId);
    CorrectedTablesKeep(w.store, w.proposals, e, target);
    CorrectedKept(w.store, e, target);
    SameProposalsKept(w.proposals);
    var next := Correct(w, c, caller, eventId, target, reason, patch).value;
    assert next.store.events == Put(w.store, e).events;
    EventStepKeeps(w, next, c);
  }

  lemma SameProposalsKept(ps: Proposals)
    ensures ProposalsKept(ps, ps)
  {
  }

  lemma CorrectShape(w: State, c: Ctx, caller: Identity, eventId: string, target: string, reason: string,
                     patch: Payload)
    requires Correct(w, c, caller, eventId, target, reason, patch).Some?
    ensures target in w.store.events && target !in w.store.supersede
    ensures w.store.events[target].actorMsp == caller.msp && w.store.events[target].actorRole == caller.role
    ensures var subject, payload := w.store.events[target].subject, CorrectionPayload(target, reason, patch);
            var e := NewEvent(c, caller, Correction, subject, payload, eventId);
            var written := WriteEvent(w, c, caller, Correction, subject, payload, eventId);
            && written.Some? && e.id !in w.store.events && written.value.store == Put(w.store, e)
            && written.value.registry == w.registry && written.value.proposals == w.proposals
               && written.value.used == w.used
            && Target(e) == target && Patch(e).JObject?
            && Correct(w, c, caller, eventId, target, reason, patch)
               == Some(written.value.(store := Supersede(Put(w.store, e), target, e.id)))
  {
  }

  lemma SupersedeKeepsGoverned(ps: Proposals, s: EventStore.Store, target: string, next: string)
    requires ProposalsMatch(ps, s) && GovernedFinal(s) && RewardsMatch(s) && target in s.events
    requires !Governed(s.events[target].etype)
    ensures var t := Supersede(s, target, next); ProposalsMatch(ps, t) && GovernedFinal(t) && RewardsMatch(t)
  {
    var t := Supersede(s, target, next);
    forall id | id in t.events && t.events[id].etype == RewardIssued
      ensures exists rule :: PaysBasis(t, t.events[id], rule) {
      var rule :| PaysBasis(s, s.events[id], rule);
      assert PaysBasis(t, t.events[id], rule);
    }
  }

  lemma FinalizeKeeps(w: State, c: Ctx, caller: Identity, id: string, eventId: string)
    requires Inv(w) && c.txId !in w.used && Finalize(w, c, caller, id, eventId).Some?
    ensures var next := Finalize(w, c, caller, id, eventId).value; Inv(Used(next, c)) && Kept(w, Used(next, c))
  {
    var p := w.proposals[id];
    var e := NewEvent(c, AuthorityOf(caller), p.etype, p.subject, p.payload, eventId);
    WriteKeepsBook(w, c, AuthorityOf(caller), p.etype, p.subject, p.payload, eventId);
    FinalizedTablesKeep(w.store, w.proposals, e, id);
    FinalizedKept(w.proposals, id, e.id);
    EventStepKeeps(w, Finalize(w, c, caller, id, eventId).value, c);
  }

  lemma BookUnchanged(b: Book, used: set<string>, more: set<string>, events: set<string>)
    requires BookInv(b, used, events) && used <= more
    ensures BookInv(b, more, events) && TrustKept(b, b)
  {
  }

  lemma ProposalsKeep(w: State, c: Ctx, p: Option<Proposals>)
    requires Inv(w) && p.Some? && ProposalsMatch(p.value, w.store) && ProposalsKept(w.proposals, p.value)
    ensures var next := AfterProposals(w, p).value; Inv(Used(next, c)) && Kept(w, Used(next, c))
  {
    BookUnchanged(w.book, w.used, w.used + {c.txId}, w.store.events.Keys);
  }

  /** Registry steps that touch no account. */
  lemma RegistryKeeps(w: State, c: Ctx, r: Option<Registry>)
    requires Inv(w) && r.Some? && RegistryInv(r.value) && DecisionsKept(w.registry, r.value)
    requires RequestsSourced(r.value, w.used + {c.txId}) && ActiveTrusted(w.book, r.value)
    ensures var next := AfterRegistry(w, r).value; Inv(Used(next, c)) && Kept(w, Used(next, c))
  {
    BookUnchanged(w.book, w.used, w.used + {c.txId}, w.store.events.Keys);
  }

  lemma RequestIsSourced(reg: Registry, address: string, role: Role, txId: string, used: set<string>)
    requires RequestsSourced(reg, used) && RequestRole(reg, address, role, txId).Some?
    ensures RequestsSourced(RequestRole(reg, address, role, txId).value, used + {txId})
  {
    var next := RequestRole(reg, address, role, txId).value;
    forall t | RequestId(t) in next.requests ensures t in used + {txId} {
      if RequestId(t) == RequestId(txId) { RequestIdInjective(t, txId); }
    }
  }

  lemma OpenWalletKeepsBook(b: Book, own: bool, address: string, used: set<string>, more: set<string>,
                            events: set<string>)
    requires BookInv(b, used, events) && used <= more
    ensures var next := Ensure(Begin(b, own), address).written;
            BookInv(next, more, events) && TrustKept(b, next) && address in next.assets
  {
    var next := Ensure(Begin(b, own), address).written;
    forall x ensures AssetsOf(next, x) == AssetsOf(b, x) {}
    SameLogMatches(b, next);
    forall x | TrustBase(x) in next.markers ensures AssetsOf(next, x).trust >= VERIFIED_TRUST {
      assert AssetsOf(b, x).trust >= VERIFIED_TRUST;
    }
    forall x ensures 0 <= AssetsOf(next, x).trust <= 100 {
      assert 0 <= AssetsOf(b, x).trust <= 100;
    }
  }

  lemma OpenWalletKeeps(w: State, c: Ctx, address: string, derived: Option<string>, name: string)
    requires Inv(w) && OpenWallet(w, c, address, derived, name).Some?
    ensures var next := OpenWallet(w, c, address, derived, name).value; Inv(Used(next, c)) && Kept(w, Used(next, c))
  {
    var registry := Register(w.registry, address, derived, name).value;
    var book := Ensure(Begin(w.book, c.readsOwnWrites), address).written;
    RegisterKeeps(w.registry, address, derived, name);
    OpenWalletKeepsBook(w.book, c.readsOwnWrites, address, w.used, w.used + {c.txId}, w.store.events.Keys);
    RegisteredTrusted(w.book, book, w.registry, registry, address);
    AccountStepKeeps(w, registry, book, c);
  }

  lemma RegisteredTrusted(b: Book, next: Book, reg: Registry, registered: Registry, address: string)
    requires ActiveTrusted(b, reg) && TrustKept(b, next) && address in next.assets
    requires forall a :: a in registered.wallets ==>
               if a == address then registered.wallets[a].status != Active
               else a in reg.wallets && registered.wallets[a] == reg.wallets[a]
    ensures ActiveTrusted(next, registered)
  {
    KeptActive(b, next, reg);
  }

  /** After a grant the granted wallet is trusted, and every other one is as it was. */
  lemma GrantKeepsTrusted(b: Book, next: Book, reg: Registry, granted: Registry, address: string)
    requires ActiveTrusted(b, reg) && TrustKept(b, next)
    requires address in next.assets && next.assets[address].trust >= VERIFIED_TRUST
    requires forall a :: a in granted.wallets ==>
            a == address || (a in reg.wallets && granted.wallets[a] == reg.wallets[a])
    ensures ActiveTrusted(next, granted)
  {
    forall a | a in granted.wallets
      ensures a in next.assets && (granted.wallets[a].status == Active ==> next.assets[a].trust >= VERIFIED_TRUST)
    {
      assert AssetsOf(next, a).trust >= AssetsOf(b, a).trust;
    }
  }

  lemma GrantKeeps(w: State, c: Ctx, r: Option<Registry>, address: string)
    requires Inv(w) && c.txId !in w.used && r.Some? && RegistryInv(r.value) && DecisionsKept(w.registry, r.value)
    requires RequestsSourced(r.value, w.used) && address in w.registry.wallets
    requires forall a :: a in r.value.wallets ==>
            a == address || (a in w.registry.wallets && r.value.wallets[a] == w.registry.wallets[a])
    ensures var next := AfterGrant(w, c, r, address).value; Inv(Used(next, c)) && Kept(w, Used(next, c))
  {
    InitializeKeeps(w.book, c.readsOwnWrites, c.txId, address, w.used, w.store.events.Keys);
    var book := InitializeTrust(Begin(w.book, c.readsOwnWrites), c.txId, address).written;
    GrantKeepsTrusted(w.book, book, w.registry, r.value, address);
    AccountStepKeeps(w, r.value, book, c);
  }

  /** The parts of the invariant put together, for a step that leaves events and proposals alone. */
  lemma AccountStepKeeps(w: State, reg: Registry, book: Book, c: Ctx)
    requires Inv(w) && RegistryInv(reg) && DecisionsKept(w.registry, reg) && RequestsSourced(reg, w.used)
    requires BookInv(book, w.used + {c.txId}, w.store.events.Keys)
    requires ActiveTrusted(book, reg) && TrustKept(w.book, book)
    ensures var next := Used(w.(registry := reg, book := book), c); Inv(next) && Kept(w, next)
  {
    StoreKeptSame(w.store);
    SameProposalsKept(w.proposals);
  }

  lemma StoreKeptSame(s: EventStore.Store)
    ensures StoreKept(s, s)
  {
  }

  lemma GenesisInv()
    ensures Inv(GENESIS)
  {
    EmptyBookInv();
    EmptyTablesMatch();
    EmptyRegistryInv();
  }

  lemma EmptyTablesMatch()
    ensures TablesMatch(EventStore.EMPTY, map[])
  {
  }

  lemma EmptyRegistryInv()
    ensures RegistryInv(Wallets.EMPTY) && RequestsSourced(Wallets.EMPTY, {}) && ActiveTrusted(EMPTY_BOOK, Wallets.EMPTY)
  {
  }

  lemma EmptyBookInv()
    ensures BookInv(EMPTY_BOOK, {}, {})
  {
  }

  // ------------------------------------------------------------- one transaction each

  /** An accepted transaction keeps every table consistent and undoes nothing. */
  ghost predicate Keeps(w: State, c: Ctx, next: Option<State>) {
    next.Some? ==> Inv(Used(next.value, c)) && Kept(w, Used(next.value, c))
  }

  /** The state is consistent, the transaction id is new, and the caller holds a role. */
  ghost predicate Starts(w: State, c: Ctx, caller: Identity) {
    Inv(w) && c.txId !in w.used && Caller(c) == Some(caller)
  }

  lemma SubmitCase(w: State, c: Ctx, caller: Identity, eventId: string, t: EventType, subject: string, payload: Payload)
    requires Starts(w, c, caller)
    ensures Keeps(w, c, Submit(w, c, caller, eventId, t, subject, payload))
  {
    if Submit(w, c, caller, eventId, t, subject, payload).Some? {
      SubmitKeeps(w, c, caller, eventId, t, subject, payload);
    }
  }

  lemma CorrectCase(w: State, c: Ctx, caller: Identity, eventId: string, target: string, reason: string, patch: Payload)
    requires Starts(w, c, caller)
    ensures Keeps(w, c, Correct(w, c, caller, eventId, target, reason, patch))
  {
    CallerIsBusiness(c);
    if Correct(w, c, caller, eventId, target, reason, patch).Some? {
      CorrectKeeps(w, c, caller, eventId, target, reason, patch);
    }
  }

  lemma FinalizeCase(w: State, c: Ctx, caller: Identity, id: string, eventId: string)
    requires Starts(w, c, caller)
    ensures Keeps(w, c, Finalize(w, c, caller, id, eventId))
  {
    if Finalize(w, c, caller, id, eventId).Some? {
      FinalizeKeeps(w, c, caller, id, eventId);
    }
  }

  lemma OpenCase(w: State, c: Ctx, caller: Identity, address: string, derived: Option<string>, name: string)
    requires Starts(w, c, caller)
    ensures Keeps(w, c, OpenWallet(w, c, address, derived, name))
  {
    if OpenWallet(w, c, address, derived, name).Some? {
      OpenWalletKeeps(w, c, address, derived, name);
    }
  }

  lemma RequestCase(w: State, c: Ctx, caller: Identity, address: string, role: Role)
    requires Starts(w, c, caller)
    ensures Keeps(w, c, AfterRegistry(w, RequestRole(w.registry, address, role, c.txId)))
  {
    var r := RequestRole(w.registry, address, role, c.txId);
    if r.Some? {
      RequestIsSourced(w.registry, address, role, c.txId, w.used);
      RequestRoleKeeps(w.registry, address, role, c.txId);
      RegistryKeeps(w, c, r);
    }
  }

  lemma ApproveCase(w: State, c: Ctx, caller: Identity, requestId: string, clientHash: string, alias: string)
    requires Starts(w, c, caller)
    ensures Keeps(w, c, AfterGrant(w, c, ApproveRequest(w.registry, caller, c.org, requestId, clientHash, alias),
                                   RequestedWallet(w.registry, requestId)))
  {
    var r := ApproveRequest(w.registry, caller, c.org, requestId, clientHash, alias);
    if r.Some? {
      ApproveRequestKeeps(w.registry, caller, c.org, requestId, clientHash, alias);
      GrantKeeps(w, c, r, RequestedWallet(w.registry, requestId));
    }
  }

  lemma RejectCase(w: State, c: Ctx, caller: Identity, requestId: string, reason: string)
    requires Starts(w, c, caller)
    ensures Keeps(w, c, AfterRegistry(w, RejectRequest(w.registry, caller, c.org, requestId, reason)))
  {
    var r := RejectRequest(w.registry, caller, c.org, requestId, reason);
    if r.Some? {
      RejectKeeps(w.registry, caller, c.org, requestId, reason);
      RegistryKeeps(w, c, r);
    }
  }

  lemma GrantCase(w: State, c: Ctx, caller: Identity, address: string, role: Role, clientHash: string, alias: string)
    requires Starts(w, c, caller)
    ensures Keeps(w, c, AfterGrant(w, c, GrantRole(w.registry, caller, c.org, address, role, clientHash, alias),
                                   address))
  {
    var r := GrantRole(w.registry, caller, c.org, address, role, clientHash, alias);
    if r.Some? {
      GrantRoleKeeps(w.registry, caller, c.org, address, role, clientHash, alias);
      GrantKeeps(w, c, r, address);
    }
  }

  lemma RevokeCase(w: State, c: Ctx, caller: Identity, address: string)
    requires Starts(w, c, caller)
    ensures Keeps(w, c, AfterRegistry(w, RevokeRole(w.registry, caller, address)))
  {
    var r := RevokeRole(w.registry, caller, address);
    if r.Some? {
      RevokeKeeps(w.registry, caller, address);
      RegistryKeeps(w, c, r);
    }
  }

  lemma ProposeCase(w: State, c: Ctx, caller: Identity, id: string, t: EventType, subject: string, payload: Payload)
    requires Starts(w, c, caller)
    ensures Keeps(w, c, AfterProposals(w, Propose(w.proposals, caller, id, t, subject, payload)))
  {
    CallerIsBusiness(c);
    var p := Propose(w.proposals, caller, id, t, subject, payload);
    if p.Some? {
      ProposeKeeps(w.proposals, w.store, caller, id, t, subject, payload);
      ProposalsKeep(w, c, p);
    }
  }

  lemma ApprovalCase(w: State, c: Ctx, caller: Identity, id: string)
    requires Starts(w, c, caller)
    ensures Keeps(w, c, AfterProposals(w, Approve(w.proposals, caller, id)))
  {
    CallerIsBusiness(c);
    var p := Approve(w.proposals, caller, id);
    if p.Some? {
      ApproveKeeps(w.proposals, w.store, caller, id);
      ApproveKeepsOthers(w.proposals, caller, id);
      ProposalsKeep(w, c, p);
    }
  }

  lemma WalletAttemptKeeps(w: State, c: Ctx, caller: Identity, tx: Tx)
    requires Starts(w, c, caller)
    requires tx.RegisterWallet? || tx.RequestWalletRole? || tx.ApproveWalletRole? || tx.RejectWalletRole?
             || tx.GrantWalletRole? || tx.RevokeWalletRole?
    ensures Keeps(w, c, Attempt(w, c, tx))
  {
    match tx {
      case RegisterWallet(address, derived, name) => OpenCase(w, c, caller, address, derived, name);
      case RequestWalletRole(address, role) => RequestCase(w, c, caller, address, role);
      case ApproveWalletRole(requestId, clientHash, alias) => ApproveCase(w, c, caller, requestId, clientHash, alias);
      case RejectWalletRole(requestId, reason) => RejectCase(w, c, caller, requestId, reason);
      case GrantWalletRole(address, role, clientHash, alias) =>
        GrantCase(w, c, caller, address, role, clientHash, alias);
      case RevokeWalletRole(address) => RevokeCase(w, c, caller, address);
    }
  }

  lemma AttemptKeeps(w: State, c: Ctx, caller: Identity, tx: Tx)
    requires Starts(w, c, caller)
    ensures Keeps(w, c, Attempt(w, c, tx))
  {
    match tx {
      case SubmitEvent(eventId, t, subject, payload) => SubmitCase(w, c, caller, eventId, t, subject, payload);
      case CorrectEvent(eventId, target, reason, patch) => CorrectCase(w, c, caller, eventId, target, reason, patch);
      case ProposeEvent(id, t, subject, payload) => ProposeCase(w, c, caller, id, t, subject, payload);
      case ApproveProposal(id) => ApprovalCase(w, c, caller, id);
      case FinalizeProposal(id, eventId) => FinalizeCase(w, c, caller, id, eventId);
      case _ => WalletAttemptKeeps(w, c, caller, tx);
    }
  }

  lemma StepIs(w: State, c: Ctx, tx: Tx)
    ensures Step(w, c, tx) == w
            || (c.txId !in w.used && Attempt(w, c, tx).Some? && Step(w, c, tx) == Used(Attempt(w, c, tx).value, c))
  {
  }

  /** Every transaction, accepted or not, keeps every table consistent and undoes nothing. */
  lemma StepKeeps(w: State, c: Ctx, tx: Tx)
    requires Inv(w)
    ensures Inv(Step(w, c, tx)) && Kept(w, Step(w, c, tx))
  {
    StepIs(w, c, tx);
    if Step(w, c, tx) == w {
      KeptReflexive(w);
    } else {
      AttemptKeeps(w, c, Caller(c).value, tx);
    }
  }

  lemma KeptReflexive(w: State)
    ensures Kept(w, w)
  {
  }

  lemma KeptTransitive(u: State, v: State, w: State)
    requires Kept(u, v) && Kept(v, w)
    ensures Kept(u, w)
  {
  }

  /** Every run from an empty state keeps every table consistent in all its states. */
  lemma {:induction false} RunKeeps(w: State, txs: seq<(Ctx, Tx)>)
    requires Inv(w)
    ensures Inv(Run(w, txs)) && Kept(w, Run(w, txs))
  {
    if txs == [] {
      KeptReflexive(w);
    } else {
      var before, last := Run(w, txs[..|txs| - 1]), txs[|txs| - 1];
      RunKeeps(w, txs[..|txs| - 1]);
      StepKeeps(before, last.0, last.1);
      KeptTransitive(w, before, Run(w, txs));
    }
  }
}
