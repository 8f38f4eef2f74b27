/** The contract as it runs: methods over the keys of the world state. */
module Contract {
  import opened Values
  import opened Events
  import opened Listing
  import opened Workflow
  import opened Histories
  import opened EventStore
  import opened MassBalance
  import opened Tokens
  import opened Governance
  import World

  /** The token writes of one running transaction. */
  class TokenSession {
    const committed: Book
    const own: bool
    var written: Book

    function Session(): Tokens.Session
      reads this
    {
      Tokens.Session(committed, written, own)
    }

    constructor (book: Book, own: bool)
      ensures Session() == Begin(book, own)
    {
      this.committed := book;
      this.own := own;
      this.written := book;
    }

    method EnsureAssets(wallet: string) returns (a: Assets)
      modifies this
      ensures Session() == Ensure(old(Session()), wallet) && a == AssetsOf(View(old(Session())), wallet)
    {
      var seen := if own then written else committed;
      if wallet in seen.assets {
        return seen.assets[wallet];
      }
      a := NO_ASSETS;
      written := written.(assets := written.assets[wallet := a]);
    }

    method PostRow(wallet: string, a: Assets, key: RowKey, row: Row, marker: Marker)
      modifies this
      ensures Session() == Post(old(Session()), wallet, a, key, row, marker)
    {
      written := Book(written.assets[wallet := a], written.rows[key := row], written.markers + {marker});
    }

    method Mark(marker: Marker)
      modifies this
      ensures written == old(written).(markers := old(written).markers + {marker})
    {
      written := written.(markers := written.markers + {marker});
    }

    method CreditOliveToken(tx: string, wallet: string, amount: int, subject: string, event: string)
      modifies this
      ensures Session() == CreditOlive(old(Session()), tx, wallet, amount, subject, event)
    {
      var seen := if own then written else committed;
      var a := EnsureAssets(wallet);
      if amount <= 0 || OliveMark(event) in seen.markers {
        return;
      }
      a := a.(olive := a.olive + amount);
      PostRow(wallet, a, RowKey(wallet, tx, OliveRow), Row(amount, a.olive, subject, event, ""), OliveMark(event));
    }

    method CreditEcoToken(tx: string, wallet: string, amount: int, lot: string, event: string, origin: string)
      modifies this
      ensures Session() == CreditEco(old(Session()), tx, wallet, amount, lot, event, origin)
    {
      var seen := if own then written else committed;
      var a := EnsureAssets(wallet);
      if amount <= 0 || EcoCredit(lot) in seen.markers {
        return;
      }
      a := a.(eco := a.eco + amount);
      PostRow(wallet, a, RowKey(wallet, tx, EcoRow), Row(amount, a.eco, lot, event, origin), EcoCredit(lot));
    }

    method Adjust(tx: string, wallet: string, delta: int, subject: string, event: string, marker: Marker)
      modifies this
      ensures Session() == AdjustTrust(old(Session()), tx, wallet, delta, subject, event, marker)
    {
      var seen := if own then written else committed;
      var a := EnsureAssets(wallet);
      if marker in seen.markers {
        return;
      }
      var after := a.trust + delta;
      if after < 0 { after := 0; }
      if after > 100 { after := 100; }
      PostRow(wallet, a.(trust := after), RowKey(wallet, tx, TrustRow(after)),
              Row(after - a.trust, after, subject, event, ""), marker);
    }

    method Initialize(tx: string, wallet: string)
      modifies this
      ensures Session() == InitializeTrust(old(Session()), tx, wallet)
    {
      var a := EnsureAssets(wallet);
      if a.trust < VERIFIED_TRUST {
        Adjust(tx, wallet, VERIFIED_TRUST - a.trust, wallet, "", TrustBase(wallet));
      }
    }

    /** The bonuses of an event before any minting. */
    method AddBonuses(tx: string, e: Event)
      modifies this
      ensures Session() == Bonuses(old(Session()), tx, e)
    {
      if ProductMilestone(e.etype) {
        CreditOliveToken(tx, e.actorWallet, 100, e.subject, e.id);
      }
      if e.etype != Correction && !Governed(e.etype) {
        Adjust(tx, e.actorWallet, 1, e.subject, e.id, TrustEvent(e.id));
      }
      if e.etype == DistributionRetail {
        Adjust(tx, e.actorWallet, 4, e.subject, e.id, TrustProduct(e.subject));
      }
    }
  }

  /** The event keys of the world state. */
  class EventTable {
    var events: map<string, Event>
    var byTime: set<(int, string)>
    var bySubject: set<(string, int, string)>
    var byType: set<(EventType, int, string)>
    var byActor: set<(string, int, string)>
    var supersede: map<string, string>
    ghost var log: seq<string>

    ghost function State(): EventStore.Store
      reads this
    {
      EventStore.Store(events, byTime, bySubject, byType, byActor, supersede, log)
    }

    ghost predicate Indexed()
      reads this
    {
      KeysMatch(State()) && IndexesMatch(State())
    }

    constructor ()
      ensures State() == EventStore.EMPTY
    {
      events, supersede, log := map[], map[], [];
      byTime, bySubject, byType, byActor := {}, {}, {}, {};
    }

    method Write(e: Event)
      modifies this
      ensures State() == Put(old(State()), e)
      ensures old(Indexed()) && e.id !in old(events) ==> Indexed()
    {
      ghost var before := State();
      events := events[e.id := e];
      byTime := byTime + {(e.orderKey, e.id)};
      bySubject := bySubject + {(e.subject, e.orderKey, e.id)};
      byType := byType + {(e.etype, e.orderKey, e.id)};
      byActor := byActor + {(e.actorOrg, e.orderKey, e.id)};
      log := log + [e.id];
      if KeysMatch(before) && IndexesMatch(before) && e.id !in before.events {
        PutKeepsTables(before, e);
      }
    }

    method PutSupersede(target: string, next: string)
      modifies this
      ensures State() == Supersede(old(State()), target, next)
    {
      supersede := supersede[target := next];
    }

    /** The ids under one index, as a range query returns them. */
    method Query(sel: Selector) returns (ids: set<string>)
      ensures ids == IndexedIds(State(), sel)
    {
      match sel {
        case All => ids := set k | k in byTime :: k.1;
        case OfSubject(x) => ids := set k | k in bySubject && k.0 == x :: k.2;
        case OfType(t) => ids := set k | k in byType && k.0 == t :: k.2;
        case OfActor(o) => ids := set k | k in byActor && k.0 == o :: k.2;
      }
    }

    /** Reads the rows of an index one by one, drops superseded events, sorts. */
    method List(sel: Selector, superseded: bool) returns (listed: seq<Event>)
      requires Indexed()
      ensures listed == Listed(State(), sel, superseded)
    {
      var ids := Query(sel);
      IndexedIdsSelect(State(), sel);
      listed := [];
      ghost var total := ids;
      while ids != {}
        invariant ids <= total
        invariant forall i, j :: 0 <= i < j < |listed| ==> listed[i].id != listed[j].id
        invariant forall e :: e in listed <==>
                e.id in total - ids && events[e.id] == e && (superseded || e.id !in supersede)
        decreases ids
      {
        var id :| id in ids;
        ids := ids - {id};
        var e := events[id];
        if superseded || id !in supersede {
          listed := listed + [e];
        }
      }
      forall e ensures e in listed <==> e in Chosen(State(), sel, superseded) {
        InChosen(State(), sel, superseded, e);
      }
      assert Elements(listed) == Chosen(State(), sel, superseded);
      SortEventsSorts(listed);
      listed := SortEvents(listed);
    }

    /** Follows the pointers from an event, laying each patch over its payload. */
    method Effective(e: Event) returns (r: Option<EventStore.Effective>)
      ensures r == EffectiveEvent(State(), e)
    {
      var payload, last, current, seen := e.payload, "", e.id, {e.id};
      while current in supersede
        invariant Walk(State(), current, payload, last, seen) == EffectiveEvent(State(), e)
        decreases |events.Keys - seen|
      {
        var next := supersede[current];
        if next in seen || next !in events || !Patch(events[next]).JObject? {
          return None;
        }
        CardinalitySmaller(events.Keys - (seen + {next}), events.Keys - seen);
        payload, last, current, seen := Overlay(payload, Patch(events[next]).fields), next, next, seen + {next};
      }
      r := Some(EventStore.Effective(payload, last));
    }

    /** The workflow events of a subject. */
    method WorkflowEvents(subject: string) returns (relevant: seq<Event>)
      requires Indexed()
      ensures relevant == History(State(), subject)
    {
      var listed := List(OfSubject(subject), false);
      HistoryIsFilter(State(), subject);
      relevant := [];
      for i := 0 to |listed|
        invariant relevant == Filter(listed[..i], Managed)
      {
        assert listed[..i + 1][..i] == listed[..i];
        if Managed(listed[i]) {
          relevant := relevant + [listed[i]];
        }
      }
      assert listed[..|listed|] == listed;
    }

    method SubjectStatus(subject: string) returns (status: Status)
      requires Indexed()
      ensures status == StatusOf(History(State(), subject))
    {
      var history := WorkflowEvents(subject);
      status := AnalyzeWorkflow(history);
    }

    /** The gate of every event write. */
    method ValidateTransition(t: EventType, subject: string, payload: Payload) returns (ok: bool)
      requires Indexed()
      ensures ok == World.TransitionAccepted(State(), t, subject, payload)
    {
      if t == Correction || Governed(t) {
        return true;
      }
      if t == ConsumerVerification {
        var status := SubjectStatus(subject);
        return status.started && status.flow == Product && status.complete;
      }
      if FlowOf(t) == Circular && t != ResidueGeneration {
        var residue := AsString(Field(payload, "residue_id"));
        if residue == "" || residue != subject {
          return false;
        }
      }
      if t == ResidueGeneration {
        var ready := CheckOrigin(AsString(Field(payload, "origin_batch")));
        if !ready {
          return false;
        }
      }
      var status := SubjectStatus(subject);
      ok := CheckStep(status, t);
    }

    method CheckOrigin(batch: string) returns (ok: bool)
      requires Indexed()
      ensures ok == World.OriginReady(State(), batch)
    {
      if batch == "" {
        return false;
      }
      var origin := SubjectStatus(batch);
      return origin.started && origin.flow == Product && origin.stepNumber >= StepIndex(Milling) + 1;
    }

    method CheckStep(status: Status, t: EventType) returns (ok: bool)
      ensures ok == Admits(status, t)
    {
      if FlowOf(t) == Unknown || !status.valid {
        return false;
      }
      if !status.started {
        return t == Steps(FlowOf(t))[0];
      }
      if status.flow != FlowOf(t) || status.complete {
        return false;
      }
      return t in status.next;
    }

    /** Reconciles a lot from its current events; none of them has a correction to read through. */
    method ReconcileResidue(lot: string) returns (rec: Reconciliation)
      requires Indexed()
      ensures rec.balanced == Balanced(Listed(State(), OfSubject(lot), false))
    {
      var listed := List(OfSubject(lot), false);
      rec := Reconcile(listed);
    }

    /** The last flag of each flagged event that no resolution names. */
    method OpenFlaggedEvents(listed: seq<Event>) returns (open: set<string>)
      ensures open == OpenFlags(listed)
    {
      var flags: map<string, string> := map[];
      var resolved: set<string> := {};
      for i := 0 to |listed|
        invariant flags == FlagsOf(listed[..i])
        invariant resolved == ResolvedOf(listed[..i])
      {
        assert listed[..i + 1][..i] == listed[..i];
        ResolvedExtends(listed, i);
        var e := listed[i];
        if e.etype == ReviewFlag {
          flags := flags[AsString(Field(e.payload, "subject_event")) := e.id];
        } else if e.etype == ReviewResolution {
          resolved := resolved + {AsString(Field(e.payload, "flag_event"))};
        }
      }
      assert listed[..|listed|] == listed;
      open := set x | x in flags && flags[x] !in resolved;
    }

    method AlreadyRewarded(listed: seq<Event>, basis: string, rule: string) returns (found: bool)
      ensures found == Rewarded(listed, basis, rule)
    {
      for i := 0 to |listed|
        invariant !Rewarded(listed[..i], basis, rule)
      {
        var e := listed[i];
        if e.etype == RewardIssued && RewardRule(e) == rule && basis in RewardBasis(e) {
          return true;
        }
      }
      return false;
    }

    /** Every rule against every current event, then sorted. */
    method DueRewards() returns (due: seq<Due>)
      requires Indexed()
      ensures forall d :: d in due <==> DueIn(State(), d)
      ensures DueSorted(due) && BasesDiffer(due)
    {
      var listed := List(All, false);
      var flagged := OpenFlaggedEvents(listed);
      IdsDiffer(State(), listed);
      var found := CollectDue(listed, flagged);
      due := SortDue(found);
    }

    method CollectDue(listed: seq<Event>, flagged: set<string>) returns (found: seq<Due>)
      requires Indexed() && flagged == OpenFlags(listed)
      requires forall i, j :: 0 <= i < j < |listed| ==> listed[i].id != listed[j].id
      ensures forall d :: d in found <==> exists e :: e in listed && DueOn(State(), listed, e, d)
      ensures BasesDiffer(found)
    {
      found := [];
      for i := 0 to |listed|
        invariant forall d :: d in found <==> exists e :: e in listed[..i] && DueOn(State(), listed, e, d)
        invariant BasesDiffer(found) && BasedIn(found, listed, i)
      {
        var more := DueForEvent(listed, flagged, listed[i]);
        assert listed[..i + 1] == listed[..i] + [listed[i]];
        MoreBasesDiffer(listed, i, found, more);
        found := found + more;
      }
      assert listed[..|listed|] == listed;
    }

    method DueForEvent(listed: seq<Event>, flagged: set<string>, e: Event) returns (due: seq<Due>)
      requires Indexed() && flagged == OpenFlags(listed)
      ensures forall d :: d in due <==> DueOn(State(), listed, e, d)
      ensures |due| <= 1 && (due != [] ==> due[0].basis == e.id)
    {
      due := [];
      for r := 0 to |RULES|
        invariant forall d :: d in due <==>
                    exists rule :: rule in RULES[..r] && IsDue(State(), listed, e, rule) && d == DueFor(e, rule)
        invariant |due| <= 1
        invariant due != [] ==> due[0].basis == e.id && exists q :: 0 <= q < r && RULES[q].etype == e.etype
      {
        var isDue := CheckRule(listed, flagged, e, RULES[r]);
        assert RULES[..r + 1] == RULES[..r] + [RULES[r]];
        if isDue {
          if due != [] {
            var q :| 0 <= q < r && RULES[q].etype == e.etype;
            RulesApart(q, r);
          }
          due := due + [DueFor(e, RULES[r])];
        }
      }
      assert RULES[..|RULES|] == RULES;
    }

    /** One rule against one event. */
    method CheckRule(listed: seq<Event>, flagged: set<string>, e: Event, rule: Rule) returns (due: bool)
      requires Indexed() && flagged == OpenFlags(listed)
      ensures due == IsDue(State(), listed, e, rule)
    {
      if rule.etype != e.etype {
        return false;
      }
      var rewarded := AlreadyRewarded(listed, e.id, rule.id);
      if rewarded || e.id in flagged {
        return false;
      }
      if rule.needsBalance {
        var lot := AsString(Field(e.payload, "residue_id"));
        if lot == "" {
          return false;
        }
        var rec := ReconcileResidue(lot);
        if !rec.balanced {
          return false;
        }
      }
      if rule.id == "quality_criteria" {
        var quality := AsString(Field(e.payload, "quality_class"));
        if quality != "extra_virgin" && quality != "organic_extra_virgin" {
          return false;
        }
      }
      return true;
    }

    method ValidateReward(payload: Payload) returns (ok: bool)
      requires Indexed()
      ensures ok == RewardAllowed(State(), payload)
    {
      var due := DueRewards();
      var basis := AsStrings(Field(payload, "basis_events"));
      if |basis| != 1 {
        return false;
      }
      for i := 0 to |due|
        invariant Claim(payload, basis[0]) !in due[..i]
      {
        if due[i] == Claim(payload, basis[0]) {
          return true;
        }
      }
      assert due[..|due|] == due;
      return false;
    }

    /** Points per organisation. */
    method RewardBalances() returns (balances: map<string, int>)
      requires Indexed() && GovernedFinal(State())
      ensures forall org :: (if org in balances then balances[org] else 0) == Balance(State(), org)
    {
      var listed := List(OfType(RewardIssued), false);
      balances := SumRewards(listed);
      ghost var s := State();
      forall org ensures PaidTo(listed, org) == Balance(s, org) {
        PaidIsBalance(s, listed, org);
      }
    }
  }

  /** What the rewards of a listing pay an organisation. */
  function PaidTo(listed: seq<Event>, org: string): int {
    if listed == [] then 0
    else
      var p := listed[|listed| - 1].payload;
      PaidTo(listed[..|listed| - 1], org) + if RewardRecipient(p) == org then RewardAmount(p) else 0
  }

  method SumRewards(listed: seq<Event>) returns (balances: map<string, int>)
    ensures forall org :: (if org in balances then balances[org] else 0) == PaidTo(listed, org)
  {
    balances := map[];
    for i := 0 to |listed|
      invariant forall org :: (if org in balances then balances[org] else 0) == PaidTo(listed[..i], org)
    {
      assert listed[..i + 1][..i] == listed[..i];
      var org := RewardRecipient(listed[i].payload);
      balances := balances[org := (if org in balances then balances[org] else 0) + RewardAmount(listed[i].payload)];
    }
    assert listed[..|listed|] == listed;
  }

  method SortDue(found: seq<Due>) returns (due: seq<Due>)
    requires BasesDiffer(found)
    ensures forall d :: d in due <==> d in found
    ensures DueSorted(due) && BasesDiffer(due)
  {
    due := [];
    for i := 0 to |found|
      invariant forall d :: d in due <==> d in found[..i]
      invariant DueSorted(due) && BasesDiffer(due)
    {
      assert found[..i + 1] == found[..i] + [found[i]];
      InsertDueAdds(due, found[i]);
      InsertDueSorts(due, found[i]);
      forall x | x in due ensures x.basis != found[i].basis {
        var k :| 0 <= k < i && found[k] == x;
      }
      InsertDueDiffer(due, found[i]);
      due := InsertDue(due, found[i]);
    }
    assert found[..|found|] == found;
  }

  lemma IdsDiffer(s: EventStore.Store, listed: seq<Event>)
    requires KeysMatch(s) && listed == Listed(s, All, false)
    ensures forall i, j :: 0 <= i < j < |listed| ==> listed[i].id != listed[j].id
  {
    ChosenDistinct(s, All, false);
    forall i, j | 0 <= i < j < |listed| ensures listed[i].id != listed[j].id {
      assert listed[i] in listed && listed[j] in listed;
      BeforeIsStrictOrder(listed[i], listed[j], listed[i]);
    }
  }

  ghost predicate IdAmong(listed: seq<Event>, n: nat, id: string) {
    exists k :: 0 <= k < n && k < |listed| && listed[k].id == id
  }

  /** Each basis is the id of one of the first `n` events. */
  ghost predicate BasedIn(found: seq<Due>, listed: seq<Event>, n: nat) {
    forall i :: 0 <= i < |found| ==> IdAmong(listed, n, found[i].basis)
  }

  lemma MoreBasesDiffer(listed: seq<Event>, i: nat, found: seq<Due>, more: seq<Due>)
    requires i < |listed| && forall i, j :: 0 <= i < j < |listed| ==> listed[i].id != listed[j].id
    requires BasesDiffer(found) && BasedIn(found, listed, i)
    requires |more| <= 1 && (more != [] ==> more[0].basis == listed[i].id)
    ensures BasesDiffer(found + more) && BasedIn(found + more, listed, i + 1)
  {
    var all := found + more;
    forall k | 0 <= k < |all| ensures IdAmong(listed, i + 1, all[k].basis) {
      if k < |found| {
        assert IdAmong(listed, i, found[k].basis);
      } else {
        assert all[k] == more[0];
      }
    }
    forall k | 0 <= k < |found| ensures found[k].basis != listed[i].id {
      assert IdAmong(listed, i, found[k].basis);
    }
  }

  lemma ResolvedExtends(listed: seq<Event>, i: nat)
    requires i < |listed|
    ensures ResolvedOf(listed[..i + 1]) == ResolvedOf(listed[..i])
              + if listed[i].etype == ReviewResolution then {AsString(Field(listed[i].payload, "flag_event"))} else {}
  {
  }

  ghost function PaidIds(listed: seq<Event>, org: string): set<string> {
    set e | e in listed && RewardRecipient(e.payload) == org :: e.id
  }

  lemma {:induction false} PaidSums(s: EventStore.Store, listed: seq<Event>, org: string)
    requires Ordered(listed) && forall e :: e in listed ==> e.id in s.events && s.events[e.id] == e
    ensures PaidTo(listed, org) == SumOver(PaidIds(listed, org), RewardPoints(s))
  {
    if listed == [] {
      assert PaidIds(listed, org) == {};
    } else {
      var n := |listed| - 1;
      var front, e := listed[..n], listed[n];
      PaidSums(s, front, org);
      assert listed == front + [e];
      if RewardRecipient(e.payload) == org {
        LastIsNew(s, listed);
        assert PaidIds(listed, org) == PaidIds(front, org) + {e.id};
        SumInsert(PaidIds(front, org), e.id, RewardPoints(s));
      } else {
        assert PaidIds(listed, org) == PaidIds(front, org);
      }
    }
  }

  lemma LastIsNew(s: EventStore.Store, listed: seq<Event>)
    requires listed != [] && Ordered(listed) && forall e :: e in listed ==> e.id in s.events && s.events[e.id] == e
    ensures forall x :: x in listed[..|listed| - 1] ==> x.id != listed[|listed| - 1].id
  {
    var n := |listed| - 1;
    forall x | x in listed[..n] ensures x.id != listed[n].id {
      var k :| 0 <= k < n && listed[k] == x;
      BeforeIsStrictOrder(listed[k], listed[n], x);
      assert listed[n] in listed;
    }
  }

  lemma PaidIsBalance(s: EventStore.Store, listed: seq<Event>, org: string)
    requires KeysMatch(s) && GovernedFinal(s) && listed == Listed(s, OfType(RewardIssued), false)
    ensures PaidTo(listed, org) == Balance(s, org)
  {
    ChosenDistinct(s, OfType(RewardIssued), false);
    forall e | e in listed ensures e.id in s.events && s.events[e.id] == e {
      InChosen(s, OfType(RewardIssued), false, e);
    }
    PaidSums(s, listed, org);
    PaidAreRewards(s, listed, org);
  }

  lemma PaidAreRewards(s: EventStore.Store, listed: seq<Event>, org: string)
    requires KeysMatch(s) && GovernedFinal(s) && listed == Listed(s, OfType(RewardIssued), false)
    ensures PaidIds(listed, org) == RewardsOf(s, org)
  {
    ChosenDistinct(s, OfType(RewardIssued), false);
    forall id ensures id in PaidIds(listed, org) <==> id in RewardsOf(s, org) {
      if id in RewardsOf(s, org) {
        InChosen(s, OfType(RewardIssued), false, s.events[id]);
        assert s.events[id] in listed;
      }
      if id in PaidIds(listed, org) {
        var e :| e in listed && RewardRecipient(e.payload) == org && e.id == id;
        InChosen(s, OfType(RewardIssued), false, e);
      }
    }
  }
}
