/** Wallet assets: capped trust, OLIVE milestones and one ECO credit per residue lot. */
module Tokens {
  import opened Values
  import opened Events
  import opened EventStore
  import opened MassBalance
  import opened Wallets

  /** Token balances in hundredths. */
  datatype Assets = Assets(eco: int, olive: int, trust: int)

  const NO_ASSETS := Assets(0, 0, 0)

  const VERIFIED_TRUST := 50

  /** What tells apart the rows one transaction logs for one wallet. */
  datatype Tag = EcoRow | OliveRow | TrustRow(after: int)

  datatype RowKey = RowKey(wallet: string, tx: string, tag: Tag)

  datatype Row = Row(amount: int, after: int, subject: string, basis: string, origin: string)

  datatype Marker =
    | OliveMark(event: string) | TrustEvent(event: string) | TrustProduct(subject: string)
    | TrustCircular(subject: string) | TrustBase(wallet: string) | EcoCredit(lot: string) | EcoMint(lot: string)

  datatype Book = Book(assets: map<string, Assets>, rows: map<RowKey, Row>, markers: set<Marker>)

  const EMPTY_BOOK := Book(map[], map[], {})

  /** The book as committed, and with the writes of the running transaction. */
  datatype Session = Session(committed: Book, written: Book, own: bool)

  function Begin(b: Book, own: bool): Session {
    Session(b, b, own)
  }

  /** What a read inside the transaction sees. */
  function View(s: Session): Book {
    if s.own then s.written else s.committed
  }

  function AssetsOf(b: Book, wallet: string): Assets {
    if wallet in b.assets then b.assets[wallet] else NO_ASSETS
  }

  /** Reads a wallet's assets, writing zeros when there are none. */
  function Ensure(s: Session, wallet: string): Session {
    if wallet in View(s).assets then s
    else s.(written := s.written.(assets := s.written.assets[wallet := NO_ASSETS]))
  }

  function Post(s: Session, wallet: string, a: Assets, key: RowKey, row: Row, marker: Marker): Session {
    s.(written := Book(s.written.assets[wallet := a], s.written.rows[key := row], s.written.markers + {marker}))
  }

  function CreditOlive(s: Session, tx: string, wallet: string, amount: int, subject: string, event: string): Session {
    if amount <= 0 || OliveMark(event) in View(s).markers then Ensure(s, wallet)
    else
      var a := AssetsOf(View(s), wallet);
      var next := a.(olive := a.olive + amount);
      Post(Ensure(s, wallet), wallet, next, RowKey(wallet, tx, OliveRow), Row(amount, next.olive, subject, event, ""),
           OliveMark(event))
  }

  function CreditEco(s: Session, tx: string, wallet: string, amount: int, lot: string, event: string,
                     origin: string): Session {
    if amount <= 0 || EcoCredit(lot) in View(s).markers then Ensure(s, wallet)
    else
      var a := AssetsOf(View(s), wallet);
      var next := a.(eco := a.eco + amount);
      Post(Ensure(s, wallet), wallet, next, RowKey(wallet, tx, EcoRow), Row(amount, next.eco, lot, event, origin),
           EcoCredit(lot))
  }

  function Clamp(x: int): int {
    if x < 0 then 0 else if x > 100 then 100 else x
  }

  function AdjustTrust(s: Session, tx: string, wallet: string, delta: int, subject: string, event: string,
                       marker: Marker): Session {
    if marker in View(s).markers then Ensure(s, wallet)
    else
      var a := AssetsOf(View(s), wallet);
      var after := Clamp(a.trust + delta);
      Post(Ensure(s, wallet), wallet, a.(trust := after), RowKey(wallet, tx, TrustRow(after)),
            Row(after - a.trust, after, subject, event, ""), marker)
  }

  function InitializeTrust(s: Session, tx: string, wallet: string): Session {
    var s1 := Ensure(s, wallet);
    var a := AssetsOf(View(s), wallet);
    if a.trust >= VERIFIED_TRUST then s1
    else AdjustTrust(s1, tx, wallet, VERIFIED_TRUST - a.trust, wallet, "", TrustBase(wallet))
  }

  predicate ProductMilestone(t: EventType) {
    t in {Cultivation, Harvest, CollectionTransport, Milling, LabVerification, Bottling, DistributionRetail}
  }

  // ----------------------------------------------------- what a finished lot mints

  function LastOrigin(events: seq<Event>): string {
    if events == [] then ""
    else if events[|events| - 1].etype == ResidueGeneration
        then AsString(Field(events[|events| - 1].payload, "origin_batch"))
    else LastOrigin(events[..|events| - 1])
  }

  function Energy(events: seq<Event>): real {
    if events == [] then 0.0
    else
      var e := events[|events| - 1];
      Energy(events[..|events| - 1])
      + if e.etype == UsefulOutput && AsString(Field(e.payload, "output_type")) == "bioenergy_kwh"
        then AsFloat(Field(e.payload, "quantity")) else 0.0
  }

  function LastMaker(events: seq<Event>): string {
    if events == [] then ""
    else if events[|events| - 1].etype == Milling && events[|events| - 1].actorWallet != ""
        then events[|events| - 1].actorWallet
    else LastMaker(events[..|events| - 1])
  }

  /** A tenth of a token per kWh, rounded to hundredths. */
  function EcoAmount(energy: real): int {
    (energy * 10.0 + 0.5).Floor
  }

  ghost function MintEco(s: Session, tx: string, store: EventStore.Store, lot: string, event: string): Session {
    var events := Listed(store, OfSubject(lot), false);
    var origin, energy := LastOrigin(events), Energy(events);
    var maker := LastMaker(Listed(store, OfSubject(origin), false));
    if EcoMint(lot) in View(s).markers || origin == "" || energy <= 0.0 || maker == "" || EcoAmount(energy) <= 0 then s
    else
      var s1 := CreditEco(s, tx, maker, EcoAmount(energy), lot, event, origin);
      s1.(written := s1.written.(markers := s1.written.markers + {EcoMint(lot)}))
  }

  function Milestone(s: Session, tx: string, e: Event): Session {
    if ProductMilestone(e.etype) then CreditOlive(s, tx, e.actorWallet, 100, e.subject, e.id) else s
  }

  function EventTrust(s: Session, tx: string, e: Event): Session {
    if e.etype != Correction && !Governed(e.etype)
        then AdjustTrust(s, tx, e.actorWallet, 1, e.subject, e.id, TrustEvent(e.id))
    else s
  }

  /** The bonuses of an accepted event, before any minting. */
  function Bonuses(s: Session, tx: string, e: Event): Session {
    var s2 := EventTrust(Milestone(s, tx, e), tx, e);
    if e.etype == DistributionRetail
        then AdjustTrust(s2, tx, e.actorWallet, 4, e.subject, e.id, TrustProduct(e.subject)) else s2
  }

  predicate Earns(reg: Registry, e: Event) {
    e.actorWallet != "" && e.actorWallet in reg.wallets && reg.wallets[e.actorWallet].status == Active
  }

  ghost function ApplyIncentives(s: Session, tx: string, reg: Registry, store: EventStore.Store, e: Event): Session {
    if !Earns(reg, e) then s
    else
      var s1 := Bonuses(s, tx, e);
      if e.etype == EnvAccounting && Balanced(Listed(store, OfSubject(e.subject), false)) then
        MintEco(AdjustTrust(s1, tx, e.actorWallet, 5, e.subject, e.id, TrustCircular(e.subject)), tx, store, e.subject,
                e.id)
      else s1
  }

  // -------------------------------------------------------------------- invariant

  ghost function EcoKeys(b: Book, wallet: string): set<RowKey> {
    set k | k in b.rows && k.wallet == wallet && k.tag == EcoRow
  }

  function AmountAt(rows: map<RowKey, Row>, k: RowKey): int {
    if k in rows then rows[k].amount else 0
  }

  ghost function EcoLogged(b: Book, wallet: string): int {
    SumOver(EcoKeys(b, wallet), k => AmountAt(b.rows, k))
  }

  /** Balances agree with the log, a lot has at most one ECO row, and trust is in range. */
  ghost predicate EcoMatches(b: Book) {
    && (forall a :: AssetsOf(b, a).eco == EcoLogged(b, a))
    && (forall k, l | k in b.rows && l in b.rows ::
          k.tag == EcoRow && l.tag == EcoRow && b.rows[k].subject == b.rows[l].subject ==> k == l)
    && (forall k :: k in b.rows && k.tag == EcoRow ==> EcoCredit(b.rows[k].subject) in b.markers)
  }

  ghost predicate TrustInRange(b: Book) {
    && (forall a :: 0 <= AssetsOf(b, a).trust <= 100)
    && (forall a :: TrustBase(a) in b.markers ==> AssetsOf(b, a).trust >= VERIFIED_TRUST)
  }

  /** Rows and per-event markers stem from committed transactions and events. */
  ghost predicate Sourced(b: Book, used: set<string>, events: set<string>) {
    && (forall k :: k in b.rows ==> k.tx in used)
    && (forall id :: OliveMark(id) in b.markers || TrustEvent(id) in b.markers ==> id in events)
  }

  ghost predicate BookInv(b: Book, used: set<string>, events: set<string>) {
    EcoMatches(b) && TrustInRange(b) && Sourced(b, used, events)
  }

  /** Every active wallet has at least the verified base. */
  ghost predicate ActiveTrusted(b: Book, reg: Registry) {
    forall a :: a in reg.wallets ==>
        a in b.assets && (reg.wallets[a].status == Active ==> b.assets[a].trust >= VERIFIED_TRUST)
  }

  /** Trust never falls, and no account disappears. */
  ghost predicate TrustKept(b: Book, next: Book) {
    && (forall a :: AssetsOf(next, a).trust >= AssetsOf(b, a).trust)
    && (forall a :: a in b.assets ==> a in next.assets)
  }

  /** A session in which no ECO has been touched and no account opened. */
  ghost predicate EcoUntouched(s: Session) {
    && s.written.assets.Keys == s.committed.assets.Keys
    && (forall a :: AssetsOf(s.written, a).eco == AssetsOf(s.committed, a).eco)
    && (forall k: RowKey :: k.tag == EcoRow ==> (k in s.written.rows <==> k in s.committed.rows))
    && (forall k: RowKey :: k.tag == EcoRow && k in s.committed.rows ==> s.written.rows[k] == s.committed.rows[k])
    && (forall lot :: EcoCredit(lot) in s.written.markers <==> EcoCredit(lot) in s.committed.markers)
  }

  /** What every step of a session keeps apart from ECO. */
  ghost predicate SessionInv(s: Session, tx: string, event: string) {
    && TrustInRange(s.committed) && TrustInRange(s.written) && TrustKept(s.committed, s.written)
    && s.committed.markers <= s.written.markers
    && (forall k :: k in s.written.rows ==> k in s.committed.rows || k.tx == tx)
    && (forall id :: OliveMark(id) in s.written.markers || TrustEvent(id) in s.written.markers ==>
          OliveMark(id) in s.committed.markers || TrustEvent(id) in s.committed.markers || id == event)
    && (forall x :: TrustBase(x) in s.written.markers ==> TrustBase(x) in s.committed.markers)
  }

  lemma BeginKeeps(b: Book, own: bool, tx: string, event: string)
    requires TrustInRange(b)
    ensures SessionInv(Begin(b, own), tx, event) && EcoUntouched(Begin(b, own))
  {
  }

  lemma EnsureKeeps(s: Session, tx: string, event: string, wallet: string)
    requires SessionInv(s, tx, event) && (wallet in s.committed.assets || wallet !in s.written.assets)
    ensures SessionInv(Ensure(s, wallet), tx, event)
    ensures EcoUntouched(s) && wallet in s.committed.assets ==> EcoUntouched(Ensure(s, wallet))
  {
    forall x ensures AssetsOf(Ensure(s, wallet).written, x) == AssetsOf(s.written, x) {
    }
  }

  /** A posted account is what was posted; the others are as before. */
  lemma PostSets(s: Session, wallet: string, a: Assets, key: RowKey, row: Row, marker: Marker)
    ensures forall x :: AssetsOf(Post(Ensure(s, wallet), wallet, a, key, row, marker).written, x)
                        == if x == wallet then a else AssetsOf(s.written, x)
  {
  }

  lemma PostKeeps(s: Session, tx: string, event: string, wallet: string, a: Assets, key: RowKey, row: Row,
                  marker: Marker)
    requires SessionInv(s, tx, event) && key.tx == tx
    requires 0 <= a.trust <= 100 && a.trust >= AssetsOf(View(s), wallet).trust
    requires marker.OliveMark? || marker.TrustEvent? ==> marker.event == event
    requires !marker.TrustBase?
    ensures SessionInv(Post(Ensure(s, wallet), wallet, a, key, row, marker), tx, event)
  {
    var next := Post(Ensure(s, wallet), wallet, a, key, row, marker);
    PostSets(s, wallet, a, key, row, marker);
    assert AssetsOf(s.written, wallet).trust >= AssetsOf(s.committed, wallet).trust;
    forall x ensures 0 <= AssetsOf(next.written, x).trust <= 100
        && AssetsOf(next.written, x).trust >= AssetsOf(s.committed, x).trust {
      assert 0 <= AssetsOf(s.written, x).trust <= 100;
    }
    forall x | TrustBase(x) in next.written.markers ensures AssetsOf(next.written, x).trust >= VERIFIED_TRUST {
      assert AssetsOf(s.committed, x).trust >= VERIFIED_TRUST;
    }
  }

  lemma PostLeavesEco(s: Session, wallet: string, a: Assets, key: RowKey, row: Row, marker: Marker)
    requires EcoUntouched(s) && wallet in s.committed.assets && a.eco == AssetsOf(View(s), wallet).eco
    requires key.tag != EcoRow && !marker.EcoCredit?
    ensures EcoUntouched(Post(Ensure(s, wallet), wallet, a, key, row, marker))
  {
  }

  /** Posting an account that keeps its ECO and does not lose trust. */
  lemma QuietPostKeeps(s: Session, tx: string, event: string, wallet: string, a: Assets, key: RowKey, row: Row,
                       marker: Marker)
    requires SessionInv(s, tx, event) && EcoUntouched(s) && wallet in s.committed.assets
    requires key.tx == tx && key.tag != EcoRow && a.eco == AssetsOf(View(s), wallet).eco
    requires 0 <= a.trust <= 100 && a.trust >= AssetsOf(View(s), wallet).trust
    requires !marker.TrustBase? && !marker.EcoCredit?
    requires marker.OliveMark? || marker.TrustEvent? ==> marker.event == event
    ensures SessionInv(Post(Ensure(s, wallet), wallet, a, key, row, marker), tx, event)
    ensures EcoUntouched(Post(Ensure(s, wallet), wallet, a, key, row, marker))
  {
    PostKeeps(s, tx, event, wallet, a, key, row, marker);
    PostLeavesEco(s, wallet, a, key, row, marker);
  }

  lemma CreditOliveKeeps(s: Session, tx: string, wallet: string, amount: int, subject: string, event: string)
    requires SessionInv(s, tx, event) && EcoUntouched(s) && wallet in s.committed.assets
    ensures SessionInv(CreditOlive(s, tx, wallet, amount, subject, event), tx, event)
    ensures EcoUntouched(CreditOlive(s, tx, wallet, amount, subject, event))
  {
    if amount <= 0 || OliveMark(event) in View(s).markers {
      EnsureKeeps(s, tx, event, wallet);
    } else {
      var a := AssetsOf(View(s), wallet);
      ViewInRange(s, tx, event, wallet);
      var next := a.(olive := a.olive + amount);
      QuietPostKeeps(s, tx, event, wallet, next, RowKey(wallet, tx, OliveRow),
                     Row(amount, next.olive, subject, event, ""), OliveMark(event));
    }
  }

  lemma AdjustTrustKeeps(s: Session, tx: string, wallet: string, delta: int, subject: string, event: string,
                         marker: Marker)
    requires SessionInv(s, tx, event) && EcoUntouched(s) && delta >= 0 && wallet in s.committed.assets
    requires !marker.TrustBase? && !marker.EcoCredit? && !marker.OliveMark?
    requires marker.TrustEvent? ==> marker.event == event
    ensures SessionInv(AdjustTrust(s, tx, wallet, delta, subject, event, marker), tx, event)
    ensures EcoUntouched(AdjustTrust(s, tx, wallet, delta, subject, event, marker))
  {
    if marker in View(s).markers {
      EnsureKeeps(s, tx, event, wallet);
    } else {
      var a := AssetsOf(View(s), wallet);
      var after := Clamp(a.trust + delta);
      var key, row := RowKey(wallet, tx, TrustRow(after)), Row(after - a.trust, after, subject, event, "");
      ViewInRange(s, tx, event, wallet);
      ClampRaises(a.trust, delta);
      QuietPostKeeps(s, tx, event, wallet, a.(trust := after), key, row, marker);
      AdjustTrustPosts(s, tx, wallet, delta, subject, event, marker);
    }
  }

  lemma ClampRaises(x: int, d: int)
    requires 0 <= x <= 100 && d >= 0
    ensures x <= Clamp(x + d) <= 100
  {
  }

  lemma AdjustTrustPosts(s: Session, tx: string, wallet: string, delta: int, subject: string, event: string,
                         marker: Marker)
    requires marker !in View(s).markers
    ensures var a := AssetsOf(View(s), wallet);
            var after := Clamp(a.trust + delta);
            AdjustTrust(s, tx, wallet, delta, subject, event, marker)
            == Post(Ensure(s, wallet), wallet, a.(trust := after), RowKey(wallet, tx, TrustRow(after)),
                    Row(after - a.trust, after, subject, event, ""), marker)
  {
  }

  lemma ViewInRange(s: Session, tx: string, event: string, wallet: string)
    requires SessionInv(s, tx, event)
    ensures 0 <= AssetsOf(View(s), wallet).trust <= 100
  {
  }

  lemma MilestoneKeeps(s: Session, tx: string, e: Event)
    requires SessionInv(s, tx, e.id) && EcoUntouched(s) && e.actorWallet in s.committed.assets
    ensures SessionInv(Milestone(s, tx, e), tx, e.id) && EcoUntouched(Milestone(s, tx, e))
  {
    if ProductMilestone(e.etype) {
      CreditOliveKeeps(s, tx, e.actorWallet, 100, e.subject, e.id);
    }
  }

  lemma EventTrustKeeps(s: Session, tx: string, e: Event)
    requires SessionInv(s, tx, e.id) && EcoUntouched(s) && e.actorWallet in s.committed.assets
    ensures SessionInv(EventTrust(s, tx, e), tx, e.id) && EcoUntouched(EventTrust(s, tx, e))
  {
    if e.etype != Correction && !Governed(e.etype) {
      AdjustTrustKeeps(s, tx, e.actorWallet, 1, e.subject, e.id, TrustEvent(e.id));
    }
  }

  lemma SameCommitted(s: Session, tx: string, e: Event)
    ensures Milestone(s, tx, e).committed == s.committed && Milestone(s, tx, e).own == s.own
    ensures EventTrust(s, tx, e).committed == s.committed && EventTrust(s, tx, e).own == s.own
    ensures Bonuses(s, tx, e).committed == s.committed && Bonuses(s, tx, e).own == s.own
  {
  }

  /** Everything up to minting keeps the session and leaves ECO alone. */
  lemma BonusesKeep(s: Session, tx: string, e: Event)
    requires SessionInv(s, tx, e.id) && EcoUntouched(s) && e.actorWallet in s.committed.assets
    ensures SessionInv(Bonuses(s, tx, e), tx, e.id) && EcoUntouched(Bonuses(s, tx, e))
  {
    var s1 := Milestone(s, tx, e);
    SameCommitted(s, tx, e);
    MilestoneKeeps(s, tx, e);
    SameCommitted(s1, tx, e);
    EventTrustKeeps(s1, tx, e);
    if e.etype == DistributionRetail {
      AdjustTrustKeeps(EventTrust(s1, tx, e), tx, e.actorWallet, 4, e.subject, e.id, TrustProduct(e.subject));
    }
  }

  lemma EcoUntouchedMatches(s: Session)
    requires EcoMatches(s.committed) && EcoUntouched(s)
    ensures EcoMatches(s.written)
  {
    forall a ensures AssetsOf(s.written, a).eco == EcoLogged(s.written, a) {
      assert EcoKeys(s.written, a) == EcoKeys(s.committed, a);
      SumAgree(EcoKeys(s.written, a), k => AmountAt(s.written.rows, k), k => AmountAt(s.committed.rows, k));
    }
  }

  lemma CreditEcoKeepsSession(s: Session, tx: string, wallet: string, amount: int, lot: string, event: string,
                              origin: string)
    requires SessionInv(s, tx, event) && (wallet in s.committed.assets || wallet !in s.written.assets)
    ensures SessionInv(CreditEco(s, tx, wallet, amount, lot, event, origin), tx, event)
  {
    EnsureKeeps(s, tx, event, wallet);
    var a := AssetsOf(View(s), wallet);
    var after := a.(eco := a.eco + amount);
    ViewInRange(s, tx, event, wallet);
    PostKeeps(s, tx, event, wallet, after, RowKey(wallet, tx, EcoRow), Row(amount, after.eco, lot, event, origin),
              EcoCredit(lot));
  }

  /** Adding a row under a fresh key changes the logged sum of its wallet only, by its amount. */
  lemma LoggedAfter(b: Book, next: Book, key: RowKey, row: Row, a: string)
    requires key !in b.rows && key.tag == EcoRow && next.rows == b.rows[key := row]
    ensures EcoLogged(next, a) == EcoLogged(b, a) + if a == key.wallet then row.amount else 0
  {
    SumAgree(EcoKeys(b, a), k => AmountAt(next.rows, k), k => AmountAt(b.rows, k));
    if a == key.wallet {
      assert EcoKeys(next, a) == EcoKeys(b, a) + {key};
      SumInsert(EcoKeys(b, a), key, k => AmountAt(next.rows, k));
    } else {
      assert EcoKeys(next, a) == EcoKeys(b, a);
    }
  }

  /** Crediting a lot that has no credit yet adds one row and its amount; any other credit changes nothing. */
  lemma CreditEcoAdds(s: Session, tx: string, wallet: string, amount: int, lot: string, event: string, origin: string)
    requires EcoUntouched(s) && (wallet in s.committed.assets || wallet !in s.written.assets)
    requires forall k :: k in s.written.rows && k.tag == EcoRow ==> k.tx != tx
    ensures var next, key := CreditEco(s, tx, wallet, amount, lot, event, origin).written, RowKey(wallet, tx, EcoRow);
            if amount > 0 && EcoCredit(lot) !in View(s).markers then
              && key !in s.written.rows && next.rows.Keys == s.written.rows.Keys + {key}
              && next.rows[key] == Row(amount, AssetsOf(View(s), wallet).eco + amount, lot, event, origin)
              && AssetsOf(next, wallet).eco == AssetsOf(s.written, wallet).eco + amount
            else next.rows == s.written.rows && forall a :: AssetsOf(next, a) == AssetsOf(s.written, a)
  {
  }

  /** Either way the balances stay the sum of the log. */
  lemma CreditEcoKeeps(s: Session, tx: string, wallet: string, amount: int, lot: string, event: string, origin: string)
    requires EcoMatches(s.committed) && EcoUntouched(s)
    requires forall k :: k in s.written.rows && k.tag == EcoRow ==> k.tx != tx
    requires wallet in s.committed.assets || wallet !in s.written.assets
    ensures EcoMatches(CreditEco(s, tx, wallet, amount, lot, event, origin).written)
  {
    EcoUntouchedMatches(s);
    var next := CreditEco(s, tx, wallet, amount, lot, event, origin);
    var a := AssetsOf(View(s), wallet);
    var after, key := a.(eco := a.eco + amount), RowKey(wallet, tx, EcoRow);
    var row := Row(amount, after.eco, lot, event, origin);
    if amount > 0 && EcoCredit(lot) !in View(s).markers {
      PostSets(s, wallet, after, key, row, EcoCredit(lot));
      assert next == Post(Ensure(s, wallet), wallet, after, key, row, EcoCredit(lot));
      RowAddedMatches(s.written, next.written, key, row, lot);
    } else {
      SameLogMatches(s.written, next.written);
    }
  }

  lemma RowAddedMatches(b: Book, next: Book, key: RowKey, row: Row, lot: string)
    requires EcoMatches(b) && key !in b.rows && key.tag == EcoRow && EcoCredit(lot) !in b.markers && row.subject == lot
    requires next.rows == b.rows[key := row] && next.markers == b.markers + {EcoCredit(lot)}
    requires forall x :: AssetsOf(next, x).eco == AssetsOf(b, x).eco + if x == key.wallet then row.amount else 0
    ensures EcoMatches(next)
  {
    forall x ensures AssetsOf(next, x).eco == EcoLogged(next, x) {
      LoggedAfter(b, next, key, row, x);
    }
  }

  lemma SameLogMatches(b: Book, next: Book)
    requires EcoMatches(b) && next.rows == b.rows && next.markers >= b.markers
    requires forall x :: AssetsOf(next, x).eco == AssetsOf(b, x).eco
    ensures EcoMatches(next)
  {
  }

  // ------------------------------------------------------------- whole transactions

  lemma SessionEnds(s: Session, tx: string, event: string, used: set<string>, events: set<string>)
    requires SessionInv(s, tx, event) && EcoMatches(s.written) && Sourced(s.committed, used, events)
    ensures BookInv(s.written, used + {tx}, events + {event})
  {
  }

  /** Accepting an event keeps every account and log rule, whichever reads the platform gives. */
  lemma IncentivesKeep(b: Book, own: bool, tx: string, reg: Registry, store: EventStore.Store, e: Event,
                       used: set<string>, events: set<string>)
    requires BookInv(b, used, events) && ActiveTrusted(b, reg) && tx !in used
    ensures var next := ApplyIncentives(Begin(b, own), tx, reg, store, e).written;
            BookInv(next, used + {tx}, events + {e.id}) && ActiveTrusted(next, reg) && TrustKept(b, next)
  {
    var s := Begin(b, own);
    BeginKeeps(b, own, tx, e.id);
    if !Earns(reg, e) {
      SessionEnds(s, tx, e.id, used, events);
    } else {
      BonusesKeep(s, tx, e);
      SameCommitted(s, tx, e);
      EarningsKeep(Bonuses(s, tx, e), tx, store, e, used, events);
    }
    KeptActive(b, ApplyIncentives(s, tx, reg, store, e).written, reg);
  }

  /** What an environmental accounting of a balanced lot adds. */
  lemma EarningsKeep(s1: Session, tx: string, store: EventStore.Store, e: Event, used: set<string>, events: set<string>)
    requires SessionInv(s1, tx, e.id) && EcoUntouched(s1) && EcoMatches(s1.committed)
    requires e.actorWallet in s1.committed.assets
    requires Sourced(s1.committed, used, events) && tx !in used
    ensures var last := if e.etype == EnvAccounting && Balanced(Listed(store, OfSubject(e.subject), false)) then
                          MintEco(AdjustTrust(s1, tx, e.actorWallet, 5, e.subject, e.id, TrustCircular(e.subject)), tx,
                                  store, e.subject, e.id)
                        else s1;
            TrustKept(s1.committed, last.written) && BookInv(last.written, used + {tx}, events + {e.id})
  {
    if e.etype == EnvAccounting && Balanced(Listed(store, OfSubject(e.subject), false)) {
      AdjustTrustKeeps(s1, tx, e.actorWallet, 5, e.subject, e.id, TrustCircular(e.subject));
      MintKeeps(AdjustTrust(s1, tx, e.actorWallet, 5, e.subject, e.id, TrustCircular(e.subject)), tx, store, e.subject,
                e.id, used, events);
    } else {
      EcoUntouchedMatches(s1);
      SessionEnds(s1, tx, e.id, used, events);
    }
  }

  lemma KeptActive(b: Book, next: Book, reg: Registry)
    requires ActiveTrusted(b, reg) && TrustKept(b, next)
    ensures ActiveTrusted(next, reg)
  {
    forall a | a in reg.wallets && reg.wallets[a].status == Active
      ensures a in next.assets && next.assets[a].trust >= VERIFIED_TRUST {
      assert AssetsOf(next, a).trust >= AssetsOf(b, a).trust;
    }
  }

  lemma MintKeeps(s: Session, tx: string, store: EventStore.Store, lot: string, event: string, used: set<string>,
                  events: set<string>)
    requires SessionInv(s, tx, event) && EcoUntouched(s) && EcoMatches(s.committed)
    requires Sourced(s.committed, used, events) && tx !in used
    ensures SessionInv(MintEco(s, tx, store, lot, event), tx, event)
    ensures MintEco(s, tx, store, lot, event).committed == s.committed
    ensures BookInv(MintEco(s, tx, store, lot, event).written, used + {tx}, events + {event})
  {
    var listed := Listed(store, OfSubject(lot), false);
    var origin, amount := LastOrigin(listed), EcoAmount(Energy(listed));
    var maker := LastMaker(Listed(store, OfSubject(origin), false));
    EcoUntouchedMatches(s);
    CreditEcoKeeps(s, tx, maker, amount, lot, event, origin);
    CreditEcoKeepsSession(s, tx, maker, amount, lot, event, origin);
    var next := MintEco(s, tx, store, lot, event);
    assert next.written == s.written
        || next.written.(markers := {}) == CreditEco(s, tx, maker, amount, lot, event, origin).written.(markers := {});
    MarkedMatches(CreditEco(s, tx, maker, amount, lot, event, origin), tx, event, EcoMint(lot));
    SessionEnds(next, tx, event, used, events);
  }

  lemma MarkedMatches(s: Session, tx: string, event: string, marker: Marker)
    requires SessionInv(s, tx, event) && EcoMatches(s.written) && marker.EcoMint?
    ensures var next := s.(written := s.written.(markers := s.written.markers + {marker}));
            SessionInv(next, tx, event) && EcoMatches(next.written)
  {
    var next := s.(written := s.written.(markers := s.written.markers + {marker}));
    forall x ensures AssetsOf(next.written, x) == AssetsOf(s.written, x) {}
    SameLogMatches(s.written, next.written);
  }

  /** A role grant brings the wallet to the verified base and never lowers trust. */
  lemma InitializeKeeps(b: Book, own: bool, tx: string, wallet: string, used: set<string>, events: set<string>)
    requires BookInv(b, used, events) && wallet in b.assets
    ensures var next := InitializeTrust(Begin(b, own), tx, wallet).written;
            BookInv(next, used + {tx}, events) && TrustKept(b, next) && next.assets[wallet].trust >= VERIFIED_TRUST
  {
    var s := Begin(b, own);
    var a := AssetsOf(b, wallet);
    var next := InitializeTrust(s, tx, wallet).written;
    if a.trust < VERIFIED_TRUST {
      var key := RowKey(wallet, tx, TrustRow(VERIFIED_TRUST));
      assert TrustBase(wallet) !in b.markers;
      forall x ensures AssetsOf(next, x) == if x == wallet then a.(trust := VERIFIED_TRUST) else AssetsOf(b, x) {}
      forall x ensures AssetsOf(next, x).eco == EcoLogged(next, x) {
        assert EcoKeys(next, x) == EcoKeys(b, x);
        SumAgree(EcoKeys(b, x), k => AmountAt(next.rows, k), k => AmountAt(b.rows, k));
        assert AssetsOf(b, x).eco == EcoLogged(b, x);
      }
    }
  }

  /** The OLIVE credit of a milestone survives its transaction exactly when reads see the
      transaction's own writes: the trust bonus that follows rewrites the whole account. */
  lemma OliveSurvivesIffOwnReads(b: Book, own: bool, tx: string, e: Event, used: set<string>, events: set<string>)
    requires Sourced(b, used, events) && e.id !in events && ProductMilestone(e.etype) && e.actorWallet in b.assets
    ensures var next, w := Bonuses(Begin(b, own), tx, e).written, e.actorWallet;
            && RowKey(w, tx, OliveRow) in next.rows && next.rows[RowKey(w, tx, OliveRow)].amount == 100
            && next.assets[w].olive == b.assets[w].olive + (if own then 100 else 0)
  {
  }

  /** What trust an accepted operational event earns: one point, and four more when it distributes a product
      for the first time; the two come together only when reads see the transaction's own writes. */
  lemma TrustEarned(b: Book, own: bool, tx: string, e: Event, used: set<string>, events: set<string>)
    requires BookInv(b, used, events) && e.id !in events && e.actorWallet in b.assets
    requires e.etype != Correction && !Governed(e.etype) && TrustProduct(e.subject) !in b.markers
    ensures AssetsOf(Bonuses(Begin(b, own), tx, e).written, e.actorWallet).trust
            == Clamp(b.assets[e.actorWallet].trust + if e.etype != DistributionRetail then 1 else if own then 5 else 4)
  {
    assert TrustEvent(e.id) !in b.markers;
    assert 0 <= AssetsOf(b, e.actorWallet).trust <= 100;
  }

  datatype Payment = Payment(maker: string, amount: int)

  /** What minting pays for a finished lot: its maker a tenth of a token per kWh, when the lot has an origin,
      a maker and recovered energy and was never minted or credited. */
  ghost function PaymentFor(b: Book, store: EventStore.Store, lot: string): Option<Payment> {
    var listed := Listed(store, OfSubject(lot), false);
    var maker := LastMaker(Listed(store, OfSubject(LastOrigin(listed)), false));
    if EcoMint(lot) in b.markers || EcoCredit(lot) in b.markers then None
    else if LastOrigin(listed) == "" || maker == "" || Energy(listed) <= 0.0 || EcoAmount(Energy(listed)) <= 0 then None
    else Some(Payment(maker, EcoAmount(Energy(listed))))
  }

  lemma MintPays(b: Book, own: bool, tx: string, store: EventStore.Store, lot: string, event: string, a: string)
    ensures var p := PaymentFor(b, store, lot);
            AssetsOf(MintEco(Begin(b, own), tx, store, lot, event).written, a)
            == if p.Some? && a == p.value.maker then AssetsOf(b, a).(eco := AssetsOf(b, a).eco + p.value.amount)
                else AssetsOf(b, a)
  {
  }

  /** Minting a lot again pays nobody: the first mint marks what it pays. */
  lemma MintsOnce(b: Book, own: bool, tx: string, store: EventStore.Store, lot: string, event: string,
                  later: EventStore.Store)
    requires PaymentFor(b, store, lot).Some?
    ensures PaymentFor(MintEco(Begin(b, own), tx, store, lot, event).written, later, lot).None?
  {
  }
}
