/** Histories and runs that reach the exceptional side of the equivalences proved elsewhere. */
module Witnesses {
  import opened Values
  import opened Events
  import opened Listing
  import opened Workflow
  import opened Histories
  import opened EventStore
  import opened Wallets
  import opened World
  import WorkflowMirror
  import WorkflowRuns
  import Guarantees

  // ------------------------------------------------------------------- one farmer

  const WALLET := "wallet"
  const CERTIFICATE := "certificate"
  const BATCH := "batch"

  function Admin(own: bool, txId: string): Ctx {
    Ctx(FarmerMsp, Some(OrgAdmin), "", "admin", Some("farmer-org"), txId, 0.0, 0, own)
  }

  function FarmerAt(own: bool, txId: string, seconds: real): Ctx {
    Ctx(FarmerMsp, Some(Farmer), WALLET, CERTIFICATE, Some("farmer-org"), txId, seconds, 0, own)
  }

  const FARMER := Identity(FarmerMsp, Farmer, WALLET, CERTIFICATE, "farmer-org")

  const CULTIVATION: Payload := map["farm_id" := JNull, "plot_id" := JNull, "cultivar" := JNull, "practices" := JNull]
  const HARVEST: Payload := map["date" := JNull, "quantity_kg" := JNull, "method" := JNull, "location" := JNull]

  function Opening(own: bool): (Ctx, Tx) {
    (Admin(own, "t1"), RegisterWallet(WALLET, Some(WALLET), "a farm"))
  }

  function Granting(own: bool): (Ctx, Tx) {
    (Admin(own, "t2"), GrantWalletRole(WALLET, Farmer, CERTIFICATE, "farmer"))
  }

  function Cultivating(own: bool, seconds: real): (Ctx, Tx) {
    (FarmerAt(own, "t3", seconds), SubmitEvent("e1", Cultivation, BATCH, CULTIVATION))
  }

  function Harvesting(own: bool, seconds: real): (Ctx, Tx) {
    (FarmerAt(own, "t4", seconds), SubmitEvent("e2", Harvest, BATCH, HARVEST))
  }

  function Correcting(own: bool): (Ctx, Tx) {
    (FarmerAt(own, "t5", 20.0), CorrectEvent("e3", "e1", "a typing error", map[]))
  }

  function CultivationAt(seconds: real): Event {
    Event("e1", Cultivation, BATCH, "farmer-org", FarmerMsp, Farmer, WALLET, CERTIFICATE, seconds, 0, CULTIVATION)
  }

  function HarvestAt(seconds: real): Event {
    Event("e2", Harvest, BATCH, "farmer-org", FarmerMsp, Farmer, WALLET, CERTIFICATE, seconds, 0, HARVEST)
  }

  // -------------------------------------------------------------------- the run

  lemma RunLast(txs: Guarantees.Script, last: (Ctx, Tx))
    ensures Run(GENESIS, txs + [last]) == Step(Run(GENESIS, txs), last.0, last.1)
  {
    assert (txs + [last])[..|txs|] == txs;
  }

  /** Registration and grant: the farmer's certificate may act. */
  ghost predicate Ready(w: State) {
    w.store == EventStore.EMPTY && w.used == {"t1", "t2"} && ActiveBinding(w.registry, FARMER)
  }

  lemma Opened(own: bool)
    ensures var w := Run(GENESIS, [Opening(own)]);
            && w.store == EventStore.EMPTY && w.used == {"t1"}
            && w.registry == Registry(map[WALLET := Wallet(true, "", None, Consumer, ConsumerOnly, "", "", "")], map[],
                                      map[])
  {
    RunLast([], Opening(own));
    assert [] + [Opening(own)] == [Opening(own)];
  }

  lemma Granted(w: State, c: Ctx)
    requires c.txId == "t2" && c.txId !in w.used
    requires Caller(c) == Some(Identity(FarmerMsp, OrgAdmin, "", "admin", "farmer-org"))
    requires c.org == Some("farmer-org") && w.registry.clients == map[]
    requires WALLET in w.registry.wallets && w.registry.wallets[WALLET].enabled
    requires w.registry.wallets[WALLET].status == ConsumerOnly
    ensures var next := Step(w, c, GrantWalletRole(WALLET, Farmer, CERTIFICATE, "farmer"));
            next.store == w.store && next.used == w.used + {"t2"} && ActiveBinding(next.registry, FARMER)
  {
  }

  /** A submission by the farmer that the gate admits is accepted. */
  lemma Accepted(w: State, c: Ctx, id: string, t: EventType, payload: Payload)
    requires c.txId != "" && c.txId !in w.used && Caller(c) == Some(FARMER) && ActiveBinding(w.registry, FARMER)
    requires (t == Cultivation || t == Harvest) && PayloadAccepted(t, payload) && id != "" && id !in w.store.events
    requires Admits(StatusOf(History(w.store, BATCH)), t)
    ensures Attempt(w, c, SubmitEvent(id, t, BATCH, payload)).Some?
    ensures var next := Step(w, c, SubmitEvent(id, t, BATCH, payload));
            && next.store == Put(w.store, NewEvent(c, FARMER, t, BATCH, payload, id))
            && next.registry == w.registry && next.used == w.used + {c.txId}
  {
    var tx := SubmitEvent(id, t, BATCH, payload);
    assert TransitionAccepted(w.store, t, BATCH, payload);
    assert Attempt(w, c, tx) == Submit(w, c, FARMER, id, t, BATCH, payload);
    CommittedStep(w, c, tx);
  }

  lemma PayloadsAccepted()
    ensures PayloadAccepted(Cultivation, CULTIVATION) && PayloadAccepted(Harvest, HARVEST)
  {
  }

  /** The state after the cultivation. */
  ghost predicate Cultivated(w: State, seconds: real) {
    && w.store == Put(EventStore.EMPTY, CultivationAt(seconds)) && w.used == {"t1", "t2", "t3"}
    && ActiveBinding(w.registry, FARMER)
  }

  lemma CultivatingStep(w: State, own: bool, seconds: real)
    requires Ready(w)
    ensures Cultivated(Step(w, FarmerAt(own, "t3", seconds), SubmitEvent("e1", Cultivation, BATCH, CULTIVATION)),
                       seconds)
  {
    PayloadsAccepted();
    WorkflowRuns.EmptyHistories(BATCH);
    Accepted(w, FarmerAt(own, "t3", seconds), "e1", Cultivation, CULTIVATION);
  }

  /** The state after the harvest. */
  ghost predicate Reaped(w: State, first: real, second: real) {
    && w.store == TwoEvents(first, second) && w.used == {"t1", "t2", "t3", "t4"} && ActiveBinding(w.registry, FARMER)
  }

  lemma HarvestingStep(w: State, own: bool, first: real, second: real)
    requires Cultivated(w, first)
    ensures var c, tx := FarmerAt(own, "t4", second), SubmitEvent("e2", Harvest, BATCH, HARVEST);
            Attempt(w, c, tx).Some? && Reaped(Step(w, c, tx), first, second)
  {
    PayloadsAccepted();
    OneEvent(first);
    CultivationAdmitsHarvest(first);
    Accepted(w, FarmerAt(own, "t4", second), "e2", Harvest, HARVEST);
  }

  // ------------------------------------------------------------------ the event table

  function TwoEvents(first: real, second: real): EventStore.Store {
    Put(Put(EventStore.EMPTY, CultivationAt(first)), HarvestAt(second))
  }

  lemma OneEventInv(seconds: real)
    ensures StoreInv(Put(EventStore.EMPTY, CultivationAt(seconds)))
  {
    PutKeepsInv(EventStore.EMPTY, CultivationAt(seconds));
  }

  lemma OneEvent(seconds: real)
    ensures History(Put(EventStore.EMPTY, CultivationAt(seconds)), BATCH) == [CultivationAt(seconds)]
  {
    WorkflowRuns.EmptyHistories(BATCH);
    HistoryAfterPut(EventStore.EMPTY, CultivationAt(seconds), BATCH);
  }

  lemma CultivationAdmitsHarvest(seconds: real)
    ensures StatusOf([CultivationAt(seconds)]).valid && Admits(StatusOf([CultivationAt(seconds)]), Harvest)
  {
    var h := [CultivationAt(seconds)];
    FirstEvent(h[0]);
    assert !Mixed(h);
    assert PRODUCT_STEPS[1] == Harvest;
  }

  lemma FirstEvent(e: Event)
    requires Managed(e) && StepIndex(e.etype) == 0
    ensures FirstFlow([e]) == FlowOf(e.etype)
    ensures ReadAll(FlowOf(e.etype), [e]) == Read(FlowOf(e.etype), FRESH, e)
  {
    assert [e][..0] == [];
  }

  lemma TwoEventsInv(first: real, second: real)
    ensures StoreInv(TwoEvents(first, second))
  {
    OneEventInv(first);
    PutKeepsInv(Put(EventStore.EMPTY, CultivationAt(first)), HarvestAt(second));
  }

  lemma HarvestValidIff(first: real, second: real)
    ensures StatusOf(History(TwoEvents(first, second), BATCH)).valid <==>
            !Before(HarvestAt(second), CultivationAt(first))
  {
    var s := Put(EventStore.EMPTY, CultivationAt(first));
    OneEventInv(first);
    OneEvent(first);
    CultivationAdmitsHarvest(first);
    WorkflowRuns.PutKeepsValidIff(s, HarvestAt(second));
    assert CultivationAt(first) in History(s, BATCH);
  }

  lemma HistoryInOrder(first: real, second: real)
    requires first < second
    ensures History(TwoEvents(first, second), BATCH) == [CultivationAt(first)] + [HarvestAt(second)]
  {
    OneEvent(first);
    HistoryAfterPut(Put(EventStore.EMPTY, CultivationAt(first)), HarvestAt(second), BATCH);
    InsertLast([CultivationAt(first)], HarvestAt(second));
  }

  lemma CultivationMatters(first: real, second: real)
    ensures !WorkflowRuns.Removable([CultivationAt(first)] + [HarvestAt(second)], CultivationAt(first))
  {
  }

  /** Superseding an event that its valid history needs invalidates the history. */
  lemma NeededEvent(s: EventStore.Store, n: Event, target: string, e: Event)
    requires StoreInv(s) && n.id !in s.events && n.etype == Correction
    requires target in s.events && target !in s.supersede && s.events[target] == e
    requires StatusOf(History(s, e.subject)).valid && !WorkflowRuns.Removable(History(s, e.subject), e)
    ensures !StatusOf(History(Supersede(Put(s, n), target, n.id), e.subject)).valid
  {
    WorkflowRuns.CorrectedValidIff(s, n, target);
  }

  lemma TableFacts(first: real, second: real)
    ensures var s := TwoEvents(first, second);
            && "e1" in s.events && s.events["e1"] == CultivationAt(first) && "e3" !in s.events && "e1" !in s.supersede
  {
  }

  lemma CultivationNeeded(first: real, second: real)
    requires first < second
    ensures var h := History(TwoEvents(first, second), BATCH);
            StatusOf(h).valid && !WorkflowRuns.Removable(h, CultivationAt(first))
  {
    HarvestValidIff(first, second);
    HistoryInOrder(first, second);
    CultivationMatters(first, second);
  }

  lemma CorrectedTable(n: Event, first: real, second: real)
    requires n.id == "e3" && n.etype == Correction && first < second
    ensures !StatusOf(History(Supersede(Put(TwoEvents(first, second), n), "e1", n.id), BATCH)).valid
  {
    TwoEventsInv(first, second);
    TableFacts(first, second);
    CultivationNeeded(first, second);
    NeededEvent(TwoEvents(first, second), n, "e1", CultivationAt(first));
  }

  // --------------------------------------------------------------------- whole runs

  function Script(own: bool, first: real, second: real): Guarantees.Script {
    [Opening(own), Granting(own), Cultivating(own, first), Harvesting(own, second)]
  }

  lemma SetUp(own: bool)
    ensures Ready(Run(GENESIS, [Opening(own), Granting(own)]))
  {
    Opened(own);
    RunLast([Opening(own)], Granting(own));
    assert [Opening(own)] + [Granting(own)] == [Opening(own), Granting(own)];
    Granted(Run(GENESIS, [Opening(own)]), Granting(own).0);
  }

  lemma ScriptSteps(own: bool, first: real, second: real)
    ensures var script := Script(own, first, second);
            && Run(GENESIS, script[..3]) == Step(Run(GENESIS, [script[0], script[1]]), script[2].0, script[2].1)
            && Run(GENESIS, script) == Step(Run(GENESIS, script[..3]), script[3].0, script[3].1)
  {
    var script := Script(own, first, second);
    assert script[..3] == [script[0], script[1]] + [script[2]] && script == script[..3] + [script[3]];
    RunLast([script[0], script[1]], script[2]);
    RunLast(script[..3], script[3]);
  }

  lemma Prepared(own: bool, first: real, second: real)
    ensures Cultivated(Run(GENESIS, Script(own, first, second)[..3]), first)
  {
    SetUp(own);
    ScriptSteps(own, first, second);
    CultivatingStep(Run(GENESIS, [Opening(own), Granting(own)]), own, first);
  }

  lemma Played(own: bool, first: real, second: real)
    ensures var script := Script(own, first, second);
            Attempt(Run(GENESIS, script[..3]), script[3].0, script[3].1).Some?
                && Reaped(Run(GENESIS, script), first, second)
  {
    Prepared(own, first, second);
    ScriptSteps(own, first, second);
    HarvestingStep(Run(GENESIS, Script(own, first, second)[..3]), own, first, second);
  }

  /** A harvest that is accepted although it happened before its cultivation leaves the batch's history invalid. */
  lemma EarlyHarvestInvalidates(own: bool)
    ensures var script := Script(own, 10.0, 5.0);
            var w, last := Run(GENESIS, script[..3]), script[3];
            && Attempt(w, last.0, last.1).Some? && StatusOf(History(w.store, BATCH)).valid
            && !StatusOf(History(Run(GENESIS, script).store, BATCH)).valid
  {
    Prepared(own, 10.0, 5.0);
    Played(own, 10.0, 5.0);
    OneEvent(10.0);
    CultivationAdmitsHarvest(10.0);
    HarvestValidIff(10.0, 5.0);
  }

  lemma CorrectingStep(w: State, own: bool)
    requires Reaped(w, 5.0, 10.0)
    ensures var c, tx := Correcting(own).0, Correcting(own).1;
            Attempt(w, c, tx).Some? && !StatusOf(History(Step(w, c, tx).store, BATCH)).valid
  {
    var n := CorrectionAccepted(w, Correcting(own).0);
    CorrectedTable(n, 5.0, 10.0);
  }

  /** Correcting the cultivation of a batch that has been harvested leaves the batch's history invalid. */
  lemma CorrectionInvalidates(own: bool)
    ensures var before := Script(own, 5.0, 10.0);
            var w, last := Run(GENESIS, before), Correcting(own);
            && Attempt(w, last.0, last.1).Some? && StatusOf(History(w.store, BATCH)).valid
            && !StatusOf(History(Run(GENESIS, before + [last]).store, BATCH)).valid
  {
    Played(own, 5.0, 10.0);
    HarvestValidIff(5.0, 10.0);
    CorrectingStep(Run(GENESIS, Script(own, 5.0, 10.0)), own);
    RunLast(Script(own, 5.0, 10.0), Correcting(own));
  }

  lemma CorrectionAccepted(w: State, c: Ctx) returns (n: Event)
    requires c.txId != "" && c.txId !in w.used && Caller(c) == Some(FARMER) && ActiveBinding(w.registry, FARMER)
    requires "e1" in w.store.events && w.store.events["e1"].actorMsp == FarmerMsp
    requires w.store.events["e1"].actorRole == Farmer
    requires w.store.events["e1"].subject == BATCH && "e3" !in w.store.events && "e1" !in w.store.supersede
    ensures n.id == "e3" && n.etype == Correction
    ensures var tx := CorrectEvent("e3", "e1", "a typing error", map[]);
            Attempt(w, c, tx).Some? && Step(w, c, tx).store == Supersede(Put(w.store, n), "e1", n.id)
  {
    n := NewEvent(c, FARMER, Correction, BATCH, CorrectionPayload("e1", "a typing error", map[]), "e3");
    assert WriteEvent(w, c, FARMER, Correction, BATCH, n.payload, "e3").Some?;
  }

  // -------------------------------------------------------------------- the mirror

  /** A lot in custody whose one record says neither a boolean nor "true": the chaincode asks for another
      custody record, the service for valorization. */
  lemma MirrorDiffers(str: Json -> string, generation: Event, custody: Event)
    requires generation.etype == ResidueGeneration && custody.etype == ResidueCustody
    requires Field(custody.payload, "accepted") == JText("yes")
    ensures var events := [generation, custody];
            && WorkflowMirror.WaitsInCustody(events) && WorkflowMirror.ReadingsDiffer(events)
            && StatusOf(events).next == [ResidueCustody]
            && WorkflowMirror.MirrorStatusOf(str, events).next != StatusOf(events).next
  {
    var events := [generation, custody];
    FirstEvent(generation);
    assert events[..1] == [generation];
    var r := ReadAll(Circular, events);
    assert r == Read(Circular, Read(Circular, FRESH, generation), custody);
    assert FirstFlow(events) == Circular && !Mixed(events);
    assert StatusOf(events) == Report(Circular, r) && r.current == 1 && !r.accepted;
    assert WorkflowMirror.MirrorAccepts(events[1]) && custody in events;
    WorkflowMirror.MirrorAgrees(str, events);
  }

  /** A history of both flows: the chaincode reports that nothing started, the service that something did. */
  lemma MixedDiffers(str: Json -> string, cultivation: Event, generation: Event)
    requires cultivation.etype == Cultivation && generation.etype == ResidueGeneration
    ensures var events := [cultivation, generation];
            !StatusOf(events).started && WorkflowMirror.MirrorStatusOf(str, events).started
  {
    var events := [cultivation, generation];
    FirstEvent(cultivation);
    assert events[..1] == [cultivation];
    assert FirstFlow(events) == Product;
    assert Managed(events[1]) && FlowOf(events[1].etype) != Product;
    WorkflowMirror.MirrorAgrees(str, events);
  }
}
