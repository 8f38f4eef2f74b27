/** What an accepted event pays, in closed form: on stored events, balances and credits already given. */
module TokenLaws {
  import opened Values
  import opened Events
  import opened EventStore
  import opened MassBalance
  import opened Wallets
  import opened Tokens
  import opened World
  import Acceptance
  import WorkflowRuns
  import Workflow

  // ------------------------------------------------------------------------ energy

  lemma {:induction false} EnergyJoin(a: seq<Event>, b: seq<Event>)
    ensures Energy(a + b) == Energy(a) + Energy(b)
  {
    if b == [] {
      assert a + b == a;
    } else {
      assert (a + b)[..|a + b| - 1] == a + b[..|b| - 1];
      EnergyJoin(a, b[..|b| - 1]);
    }
  }

  /** One event yields the quantity of a bioenergy output and nothing otherwise. */
  lemma EnergyOfOne(e: Event)
    ensures e.etype == UsefulOutput && AsString(Field(e.payload, "output_type")) == "bioenergy_kwh" ==>
              Energy([e]) == AsFloat(Field(e.payload, "quantity"))
    ensures e.etype != UsefulOutput || AsString(Field(e.payload, "output_type")) != "bioenergy_kwh" ==>
              Energy([e]) == 0.0
  {
    assert [e][..0] == [];
  }

  /** The payment is ten hundredths per kWh to the nearest hundredth, halves upwards. */
  lemma EcoNearest(energy: real, amount: int)
    ensures EcoAmount(energy) == amount <==> amount as real - 0.5 <= energy * 10.0 < amount as real + 0.5
  {
  }

  // ----------------------------------------------------------------- origin and maker

  ghost predicate LastGeneration(listed: seq<Event>, k: int) {
    && 0 <= k < |listed| && listed[k].etype == ResidueGeneration
    && forall j :: k < j < |listed| ==> listed[j].etype != ResidueGeneration
  }

  lemma {:induction false} OriginIsLast(listed: seq<Event>)
    ensures (forall k :: !LastGeneration(listed, k)) ==> LastOrigin(listed) == ""
    ensures forall k :: LastGeneration(listed, k) ==>
              LastOrigin(listed) == AsString(Field(listed[k].payload, "origin_batch"))
  {
    if listed != [] {
      var n, front := |listed| - 1, listed[..|listed| - 1];
      if listed[n].etype == ResidueGeneration {
        assert LastGeneration(listed, n);
      } else {
        OriginIsLast(front);
        forall k ensures LastGeneration(listed, k) <==> LastGeneration(front, k) {
          assert forall j :: 0 <= j < n ==> front[j] == listed[j];
        }
      }
    }
  }

  ghost predicate LastMilling(listed: seq<Event>, k: int) {
    && 0 <= k < |listed| && listed[k].etype == Milling && listed[k].actorWallet != ""
    && forall j :: k < j < |listed| ==> listed[j].etype != Milling || listed[j].actorWallet == ""
  }

  lemma {:induction false} MakerIsLast(listed: seq<Event>)
    ensures (forall k :: !LastMilling(listed, k)) ==> LastMaker(listed) == ""
    ensures forall k :: LastMilling(listed, k) ==> LastMaker(listed) == listed[k].actorWallet
  {
    if listed != [] {
      var n, front := |listed| - 1, listed[..|listed| - 1];
      if listed[n].etype == Milling && listed[n].actorWallet != "" {
        assert LastMilling(listed, n);
      } else {
        MakerIsLast(front);
        forall k ensures LastMilling(listed, k) <==> LastMilling(front, k) {
          assert forall j :: 0 <= j < n ==> front[j] == listed[j];
        }
      }
    }
  }

  /** The lot's last generation names the batch, and its last milling under a wallet the maker. */
  ghost predicate MadeBy(store: EventStore.Store, lot: string, maker: string) {
    var listed := Listed(store, OfSubject(lot), false);
    exists k :: LastGeneration(listed, k) && MilledBy(store, AsString(Field(listed[k].payload, "origin_batch")), maker)
  }

  ghost predicate MilledBy(store: EventStore.Store, batch: string, maker: string) {
    var listed := Listed(store, OfSubject(batch), false);
    batch != "" && exists k :: LastMilling(listed, k) && listed[k].actorWallet == maker
  }

  /** What the lot pays its maker: never before credited, with an origin, and a positive rounded energy. */
  ghost predicate Pays(b: Book, store: EventStore.Store, lot: string, maker: string, amount: int) {
    var energy := Energy(Listed(store, OfSubject(lot), false));
    && EcoMint(lot) !in b.markers && EcoCredit(lot) !in b.markers
    && MadeBy(store, lot, maker)
    && amount > 0 && amount as real - 0.5 <= energy * 10.0 < amount as real + 0.5
  }

  lemma MilledExactly(store: EventStore.Store, batch: string, maker: string)
    ensures MilledBy(store, batch, maker) <==>
              batch != "" && maker != "" && LastMaker(Listed(store, OfSubject(batch), false)) == maker
  {
    MakerIsLast(Listed(store, OfSubject(batch), false));
  }

  lemma MadeExactly(store: EventStore.Store, lot: string, maker: string)
    ensures MadeBy(store, lot, maker) <==>
              MilledBy(store, LastOrigin(Listed(store, OfSubject(lot), false)), maker)
  {
    OriginIsLast(Listed(store, OfSubject(lot), false));
  }

  lemma PaymentExactly(b: Book, store: EventStore.Store, lot: string, maker: string, amount: int)
    ensures PaymentFor(b, store, lot) == Some(Payment(maker, amount)) <==> Pays(b, store, lot, maker, amount)
  {
    var listed := Listed(store, OfSubject(lot), false);
    MadeExactly(store, lot, maker);
    MilledExactly(store, LastOrigin(listed), maker);
    EcoNearest(Energy(listed), amount);
  }

  // ------------------------------------------------------------------------- bonuses

  /** Trust is raised up to its cap. */
  function Raised(trust: int, points: int): int {
    if trust + points > 100 then 100 else trust + points
  }

  predicate Bonus4(b: Book, e: Event) {
    e.etype == DistributionRetail && TrustProduct(e.subject) !in b.markers
  }

  ghost predicate Finishes(store: EventStore.Store, e: Event) {
    e.etype == EnvAccounting && IssuesOf(TotalsOf(Listed(store, OfSubject(e.subject), false))) == []
  }

  /** The trust an event adds: one point, four more for a product's first distribution, five more for the first
      accounting that finds a lot balanced. Without own reads only the last of them stays. */
  ghost function TrustFor(b: Book, own: bool, store: EventStore.Store, e: Event): int {
    var first := Finishes(store, e) && TrustCircular(e.subject) !in b.markers;
    if own then 1 + (if Bonus4(b, e) then 4 else 0) + (if first then 5 else 0)
    else if Bonus4(b, e) then 4 else if first then 5 else 1
  }

  lemma BonusesExactly(b: Book, own: bool, tx: string, e: Event, x: string)
    requires 0 <= AssetsOf(b, e.actorWallet).trust <= 100 && e.actorWallet in b.assets
    requires OliveMark(e.id) !in b.markers && TrustEvent(e.id) !in b.markers
    requires e.etype != Correction && !Governed(e.etype)
    ensures var was := AssetsOf(b, e.actorWallet);
            var d := if !Bonus4(b, e) then 1 else if own then 5 else 4;
            AssetsOf(Bonuses(Begin(b, own), tx, e).written, x) ==
              if x != e.actorWallet then AssetsOf(b, x)
              else Assets(was.eco, was.olive + (if own && e.etype in Workflow.PRODUCT_STEPS then 100 else 0),
                          Raised(was.trust, d))
    ensures Bonuses(Begin(b, own), tx, e).committed == b
    ensures Bonuses(Begin(b, own), tx, e).written.assets.Keys == b.assets.Keys
  {
  }

  /** Each bonus is marked as given. */
  lemma BonusesMark(b: Book, own: bool, tx: string, e: Event)
    requires OliveMark(e.id) !in b.markers && TrustEvent(e.id) !in b.markers
    requires e.etype != Correction && !Governed(e.etype)
    ensures var m := Bonuses(Begin(b, own), tx, e).written.markers;
            m == b.markers + {TrustEvent(e.id)}
                 + (if e.etype in Workflow.PRODUCT_STEPS then {OliveMark(e.id)} else {})
                 + (if e.etype == DistributionRetail then {TrustProduct(e.subject)} else {})
  {
  }

  // ---------------------------------------------------------------------- one event

  /** What one wallet has after an accepted event: the maker of a lot that finishes is paid, a product step's
      author gets 100 OLIVE hundredths and every author its trust. Without own reads a later write of the same
      account carries the OLIVE credit, and before a payment to the author the trust, away again. */
  ghost predicate Paid(b: Book, own: bool, store: EventStore.Store, e: Event, x: string, now: Assets) {
    var p := if Finishes(store, e) then PaymentFor(b, store, e.subject) else None;
    var paid := p.Some? && p.value.maker == x;
    var was := AssetsOf(b, x);
    && now.eco == was.eco + (if paid then p.value.amount else 0)
    && now.olive == was.olive + (if x == e.actorWallet && own && e.etype in Workflow.PRODUCT_STEPS then 100 else 0)
    && now.trust == if x == e.actorWallet && (own || !paid) then Raised(was.trust, TrustFor(b, own, store, e))
                    else was.trust
  }

  ghost predicate NewEvent(b: Book, e: Event) {
    && 0 <= AssetsOf(b, e.actorWallet).trust <= 100 && e.actorWallet in b.assets
    && OliveMark(e.id) !in b.markers && TrustEvent(e.id) !in b.markers
    && e.etype != Correction && !Governed(e.etype)
  }

  lemma CircularBonus(b: Book, own: bool, tx: string, e: Event, x: string)
    requires NewEvent(b, e) && e.etype == EnvAccounting
    ensures var s := AdjustTrust(Bonuses(Begin(b, own), tx, e), tx, e.actorWallet, 5, e.subject, e.id,
                                 TrustCircular(e.subject));
            Finished(b, own, e, x, s)
  {
    BonusesExactly(b, own, tx, e, x);
    BonusesExactly(b, own, tx, e, e.actorWallet);
    BonusesMark(b, own, tx, e);
    SameCommitted(Begin(b, own), tx, e);
  }

  /** No account was opened, and the lot's credits are the committed ones. */
  predicate LotUntouched(s: Session, lot: string) {
    && s.written.assets.Keys == s.committed.assets.Keys
    && (EcoMint(lot) in s.written.markers <==> EcoMint(lot) in s.committed.markers)
    && (EcoCredit(lot) in s.written.markers <==> EcoCredit(lot) in s.committed.markers)
  }

  lemma CreditInSession(s: Session, tx: string, wallet: string, amount: int, lot: string, event: string,
                        origin: string, x: string)
    requires LotUntouched(s, lot) && amount > 0
    ensures AssetsOf(CreditEco(s, tx, wallet, amount, lot, event, origin).written, x) ==
              if EcoCredit(lot) !in s.committed.markers && x == wallet
                then AssetsOf(View(s), x).(eco := AssetsOf(View(s), x).eco + amount)
              else AssetsOf(s.written, x)
  {
  }

  /** Minting in a running session: the maker's account is the one the session sees, with the payment. */
  lemma MintInSession(s: Session, tx: string, store: EventStore.Store, lot: string, event: string, x: string)
    requires LotUntouched(s, lot)
    ensures var p := PaymentFor(s.committed, store, lot);
            AssetsOf(MintEco(s, tx, store, lot, event).written, x) ==
              if p.Some? && p.value.maker == x
                then AssetsOf(View(s), x).(eco := AssetsOf(View(s), x).eco + p.value.amount)
              else AssetsOf(s.written, x)
  {
    var listed := Listed(store, OfSubject(lot), false);
    var origin, amount := LastOrigin(listed), EcoAmount(Energy(listed));
    var maker := LastMaker(Listed(store, OfSubject(origin), false));
    if amount > 0 {
      CreditInSession(s, tx, maker, amount, lot, event, origin, x);
    }
  }

  /** The session after the bonuses of an accounting that finds its lot balanced. */
  ghost predicate Finished(b: Book, own: bool, e: Event, x: string, s: Session) {
    var was := AssetsOf(b, e.actorWallet);
    var d := if TrustCircular(e.subject) in b.markers then 1 else if own then 6 else 5;
    && AssetsOf(s.written, x) == (if x == e.actorWallet then was.(trust := Raised(was.trust, d)) else AssetsOf(b, x))
    && s.committed == b && s.own == own && LotUntouched(s, e.subject)
  }

  lemma FinishedMints(b: Book, own: bool, store: EventStore.Store, e: Event, x: string, s: Session, now: Assets)
    requires Finishes(store, e) && Finished(b, own, e, x, s)
    requires var p := PaymentFor(b, store, e.subject);
             now == if p.Some? && p.value.maker == x
                      then AssetsOf(View(s), x).(eco := AssetsOf(View(s), x).eco + p.value.amount)
                    else AssetsOf(s.written, x)
    ensures Paid(b, own, store, e, x, now)
  {
  }

  lemma FinishedPaid(b: Book, own: bool, tx: string, store: EventStore.Store, e: Event, x: string)
    requires NewEvent(b, e) && Finishes(store, e)
    ensures var s := AdjustTrust(Bonuses(Begin(b, own), tx, e), tx, e.actorWallet, 5, e.subject, e.id,
                                 TrustCircular(e.subject));
            Paid(b, own, store, e, x, AssetsOf(MintEco(s, tx, store, e.subject, e.id).written, x))
  {
    var s := AdjustTrust(Bonuses(Begin(b, own), tx, e), tx, e.actorWallet, 5, e.subject, e.id,
                         TrustCircular(e.subject));
    CircularBonus(b, own, tx, e, x);
    MintInSession(s, tx, store, e.subject, e.id, x);
    FinishedMints(b, own, store, e, x, s, AssetsOf(MintEco(s, tx, store, e.subject, e.id).written, x));
  }

  lemma PlainPaid(b: Book, own: bool, tx: string, store: EventStore.Store, e: Event, x: string)
    requires NewEvent(b, e) && !Finishes(store, e)
    ensures Paid(b, own, store, e, x, AssetsOf(Bonuses(Begin(b, own), tx, e).written, x))
  {
    BonusesExactly(b, own, tx, e, x);
  }

  lemma IncentivesExactly(b: Book, own: bool, tx: string, reg: Registry, store: EventStore.Store, e: Event, x: string)
    requires NewEvent(b, e) && Tokens.Earns(reg, e)
    ensures Paid(b, own, store, e, x, AssetsOf(ApplyIncentives(Begin(b, own), tx, reg, store, e).written, x))
  {
    if Finishes(store, e) {
      FinishedPaid(b, own, tx, store, e, x);
    } else {
      PlainPaid(b, own, tx, store, e, x);
    }
  }

  // ---------------------------------------------------------------- accepted submissions

  /** Every account after an accepted submission under a wallet, on the accounts, credits and events before. */
  lemma SubmissionPays(w: State, c: Ctx, tx: Tx, x: string)
    requires Inv(w) && tx.SubmitEvent? && Acceptance.Accepted(w, c, tx) && c.wallet != ""
    ensures var next := Step(w, c, tx);
            var id := if tx.eventId == "" then c.txId else tx.eventId;
            && id in next.store.events
            && Paid(w.book, c.readsOwnWrites, if c.readsOwnWrites then next.store else w.store,
                    next.store.events[id], x, AssetsOf(next.book, x))
  {
    Acceptance.SubmitStores(w, c, tx);
    Acceptance.SubmitExactly(w, c, tx);
    StepIs(w, c, tx);
    var e := World.NewEvent(c, Caller(c).value, tx.etype, tx.subject, tx.payload, tx.eventId);
    SubmittedParts(w, c, tx);
    NewEventIs(w, e);
    var seen := if c.readsOwnWrites then Put(w.store, e) else w.store;
    IncentivesExactly(w.book, c.readsOwnWrites, c.txId, w.registry, seen, e, x);
  }

  lemma NewEventIs(w: State, e: Event)
    requires Inv(w) && e.id !in w.store.events && e.etype != Correction && !Governed(e.etype)
    requires e.actorWallet in w.registry.wallets
    ensures NewEvent(w.book, e)
  {
    assert 0 <= AssetsOf(w.book, e.actorWallet).trust <= 100;
  }

  lemma SubmittedParts(w: State, c: Ctx, tx: Tx)
    requires tx.SubmitEvent? && Attempt(w, c, tx).Some?
    ensures var next, e := Attempt(w, c, tx).value,
                           World.NewEvent(c, Caller(c).value, tx.etype, tx.subject, tx.payload, tx.eventId);
            var seen := if c.readsOwnWrites then Put(w.store, e) else w.store;
            && next.store == Put(w.store, e) && e.id !in w.store.events
            && e.etype != Correction && !Governed(e.etype)
            && next.book == ApplyIncentives(Begin(w.book, c.readsOwnWrites), c.txId, w.registry, seen, e).written
  {
    WrittenParts(w, c, Caller(c).value, tx.etype, tx.subject, tx.payload, tx.eventId);
  }

  // ----------------------------------------------------------------- other transactions

  /** An author without an active wallet earns nothing and finishes no lot. */
  lemma InactiveEarnsNothing(b: Book, own: bool, tx: string, reg: Registry, store: EventStore.Store, e: Event)
    requires e.actorWallet == "" || Acceptance.Inactive(reg, e.actorWallet)
    ensures ApplyIncentives(Begin(b, own), tx, reg, store, e).written == b
  {
    if Tokens.Earns(reg, e) {
      assert ActiveAs(reg, e.actorWallet, reg.wallets[e.actorWallet].clientHash);
    }
  }

  /** A consumer's submission without a wallet pays nobody. */
  lemma WalletlessPaysNobody(w: State, c: Ctx, tx: Tx)
    requires tx.SubmitEvent? && Acceptance.Accepted(w, c, tx) && c.wallet == ""
    ensures Step(w, c, tx).book == w.book
  {
    StepIs(w, c, tx);
    SubmittedParts(w, c, tx);
  }

  /** A grant brings the wallet's trust to 50 if it has less; nothing else of any account changes. */
  lemma GrantTrusts(w: State, c: Ctx, tx: Tx, x: string)
    requires Inv(w) && Acceptance.Accepted(w, c, tx) && (tx.GrantWalletRole? || tx.ApproveWalletRole?)
    ensures var was, now := AssetsOf(w.book, x), AssetsOf(Step(w, c, tx).book, x);
            && now.eco == was.eco && now.olive == was.olive
            && now.trust == if Acceptance.Gives(w.registry, tx, x) && was.trust < 50 then 50 else was.trust
  {
    StepIs(w, c, tx);
    var address := if tx.GrantWalletRole? then tx.address else RequestedWallet(w.registry, tx.requestId);
    GrantedBook(w, c, tx, address);
    InitializeExactly(w.book, c.readsOwnWrites, c.txId, address, x);
  }

  lemma GrantedBook(w: State, c: Ctx, tx: Tx, address: string)
    requires Attempt(w, c, tx).Some? && (tx.GrantWalletRole? || tx.ApproveWalletRole?)
    requires address == if tx.GrantWalletRole? then tx.address else RequestedWallet(w.registry, tx.requestId)
    ensures Attempt(w, c, tx).value.book == InitializeTrust(Begin(w.book, c.readsOwnWrites), c.txId, address).written
    ensures forall x :: Acceptance.Gives(w.registry, tx, x) <==> x == address
  {
  }

  lemma InitializeExactly(b: Book, own: bool, tx: string, wallet: string, x: string)
    requires TrustInRange(b)
    ensures var was, now := AssetsOf(b, x), AssetsOf(InitializeTrust(Begin(b, own), tx, wallet).written, x);
            && now.eco == was.eco && now.olive == was.olive
            && now.trust == if x == wallet && was.trust < 50 then 50 else was.trust
  {
    assert 0 <= AssetsOf(b, wallet).trust <= 100;
  }

  /** Corrections, governance, registrations, requests, rejections and revocations pay nobody. */
  lemma OthersPayNothing(w: State, c: Ctx, tx: Tx, x: string)
    requires Inv(w) && !tx.SubmitEvent? && !tx.GrantWalletRole? && !tx.ApproveWalletRole?
    ensures AssetsOf(Step(w, c, tx).book, x) == AssetsOf(w.book, x)
  {
    StepIs(w, c, tx);
    if Step(w, c, tx) != w {
      OtherAttempts(w, c, tx, x);
    }
  }

  lemma OtherAttempts(w: State, c: Ctx, tx: Tx, x: string)
    requires Inv(w) && Attempt(w, c, tx).Some?
    requires !tx.SubmitEvent? && !tx.GrantWalletRole? && !tx.ApproveWalletRole?
    ensures AssetsOf(Attempt(w, c, tx).value.book, x) == AssetsOf(w.book, x)
  {
    if tx.CorrectEvent? {
      CorrectedBook(w, c, tx, x);
    } else if tx.FinalizeProposal? {
      WorkflowRuns.GovernedProposal(w, tx.proposalId);
      FinalizedBook(w, c, tx, x);
    }
  }

  lemma QuietEvent(b: Book, own: bool, tx: string, reg: Registry, store: EventStore.Store, e: Event, x: string)
    requires e.etype == Correction || Governed(e.etype)
    ensures AssetsOf(ApplyIncentives(Begin(b, own), tx, reg, store, e).written, x) == AssetsOf(b, x)
  {
  }

  lemma QuietWrite(w: State, c: Ctx, actor: Identity, t: EventType, subject: string, payload: Payload,
                   eventId: string, x: string)
    requires t == Correction || Governed(t)
    requires WriteEvent(w, c, actor, t, subject, payload, eventId).Some?
    ensures AssetsOf(WriteEvent(w, c, actor, t, subject, payload, eventId).value.book, x) == AssetsOf(w.book, x)
  {
    var e := World.NewEvent(c, actor, t, subject, payload, eventId);
    WrittenParts(w, c, actor, t, subject, payload, eventId);
    QuietEvent(w.book, c.readsOwnWrites, c.txId, w.registry, if c.readsOwnWrites then Put(w.store, e) else w.store, e,
               x);
  }

  lemma CorrectedBook(w: State, c: Ctx, tx: Tx, x: string)
    requires tx.CorrectEvent? && Attempt(w, c, tx).Some?
    ensures AssetsOf(Attempt(w, c, tx).value.book, x) == AssetsOf(w.book, x)
  {
    var caller := Caller(c).value;
    CorrectShape(w, c, caller, tx.eventId, tx.target, tx.reason, tx.patch);
    QuietWrite(w, c, caller, Correction, w.store.events[tx.target].subject,
               CorrectionPayload(tx.target, tx.reason, tx.patch), tx.eventId, x);
  }

  lemma FinalizedBook(w: State, c: Ctx, tx: Tx, x: string)
    requires tx.FinalizeProposal? && Attempt(w, c, tx).Some?
    requires tx.proposalId in w.proposals && Governed(w.proposals[tx.proposalId].etype)
    ensures AssetsOf(Attempt(w, c, tx).value.book, x) == AssetsOf(w.book, x)
  {
    var p := w.proposals[tx.proposalId];
    QuietWrite(w, c, AuthorityOf(Caller(c).value), p.etype, p.subject, p.payload, tx.eventId, x);
  }
}
