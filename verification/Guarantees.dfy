/** What holds in every state that transactions can reach from an empty ledger. */
module Guarantees {
  import opened Values
  import opened Events
  import opened Listing
  import opened Workflow
  import opened EventStore
  import opened Wallets
  import opened Tokens
  import opened Governance
  import opened World
  import WorkflowMirror

  type Script = seq<(Ctx, Tx)>

  lemma Reached(txs: Script)
    ensures Inv(Run(GENESIS, txs))
  {
    GenesisInv();
    RunKeeps(GENESIS, txs);
  }

  lemma {:induction false} RunInTwo(w: State, first: Script, more: Script)
    ensures Run(w, first + more) == Run(Run(w, first), more)
  {
    if more == [] {
      assert first + more == first;
    } else {
      assert (first + more)[..|first + more| - 1] == first + more[..|more| - 1];
      RunInTwo(w, first, more[..|more| - 1]);
    }
  }

  /** Events, pointers, decided requests and finalized proposals stay as they are; trust never falls. */
  lemma NothingUndone(txs: Script, more: Script)
    ensures Kept(Run(GENESIS, txs), Run(GENESIS, txs + more))
  {
    Reached(txs);
    RunInTwo(GENESIS, txs, more);
    RunKeeps(Run(GENESIS, txs), more);
  }

  // ---------------------------------------------------------------------- wallets

  lemma RegistryExact(reg: Registry)
    requires RegistryInv(reg)
    ensures forall h, a :: (h in reg.clients && reg.clients[h] == a) <==> ActiveAs(reg, a, h)
    ensures forall a :: a in reg.wallets ==> (reg.wallets[a].status == Pending <==> exists r :: OpenFor(reg, r, a))
    ensures forall r, a :: OpenFor(reg, r, a) ==> a in reg.wallets && reg.wallets[a].pendingRequest == r
  {
    forall a | a in reg.wallets && reg.wallets[a].status == Pending ensures exists r :: OpenFor(reg, r, a) {
      assert OpenFor(reg, reg.wallets[a].pendingRequest, a);
    }
  }

  /** The certificate index holds exactly the active wallets, so no two share a certificate; a wallet is
      pending exactly when it has an open request, which is the only one and the one it names. */
  lemma WalletsConsistent(txs: Script)
    ensures var reg := Run(GENESIS, txs).registry;
            && (forall h, a :: (h in reg.clients && reg.clients[h] == a) <==> ActiveAs(reg, a, h))
            && (forall a, b, h :: ActiveAs(reg, a, h) && ActiveAs(reg, b, h) ==> a == b)
            && (forall a :: a in reg.wallets ==> (reg.wallets[a].status == Pending <==> exists r :: OpenFor(reg, r, a)))
            && (forall r, a :: OpenFor(reg, r, a) ==> a in reg.wallets && reg.wallets[a].pendingRequest == r)
  {
    Reached(txs);
    RegistryExact(Run(GENESIS, txs).registry);
  }

  // ------------------------------------------------------------------- governance

  ghost predicate FinalizedAs(ps: Proposals, p: string, e: string) {
    p in ps && ps[p].finalEvent == Some(e)
  }

  lemma {:induction false} DistinctApprovers(s: seq<Approval>)
    requires DistinctMsps(s) && forall a :: a in s ==> BusinessMsp(a.msp)
    ensures |Approvers(s)| == |s|
  {
    if s != [] {
      var front, a := s[..|s| - 1], s[|s| - 1];
      assert s == front + [a];
      DistinctApprovers(front);
      assert Approvers(s) == Approvers(front) + {a.msp};
      assert a.msp !in Approvers(front);
    }
  }

  lemma ProposalsExact(ps: Proposals, s: EventStore.Store)
    requires ProposalsMatch(ps, s)
    ensures forall p, e :: FinalizedAs(ps, p, e) ==>
              && e in s.events && s.events[e].etype == ps[p].etype && s.events[e].payload == ps[p].payload
              && Governed(ps[p].etype) && |Approvers(ps[p].approvals)| >= THRESHOLD
    ensures forall e :: e in s.events && Governed(s.events[e].etype) ==> exists p :: FinalizedAs(ps, p, e)
    ensures forall p, q, e :: FinalizedAs(ps, p, e) && FinalizedAs(ps, q, e) ==> p == q
  {
    forall p | p in ps ensures |Approvers(ps[p].approvals)| == |ps[p].approvals| {
      assert ApprovalsMatch(ps[p]);
      DistinctApprovers(ps[p].approvals);
    }
    forall e | e in s.events && Governed(s.events[e].etype) ensures exists p :: FinalizedAs(ps, p, e) {
      var p :| p in ps && ps[p].finalEvent == Some(e);
      assert FinalizedAs(ps, p, e);
    }
  }

  /** Finalized proposals and governed events correspond one to one, and every finalized proposal
      carries the approval of at least three different business organisations. */
  lemma GovernedEventsApproved(txs: Script)
    ensures var w := Run(GENESIS, txs);
            && (forall p, e :: FinalizedAs(w.proposals, p, e) ==>
                  && e in w.store.events && w.store.events[e].etype == w.proposals[p].etype
                  && w.store.events[e].payload == w.proposals[p].payload
                  && Governed(w.proposals[p].etype) && |Approvers(w.proposals[p].approvals)| >= THRESHOLD)
            && (forall e :: e in w.store.events && Governed(w.store.events[e].etype) ==>
                exists p :: FinalizedAs(w.proposals, p, e))
            && (forall p, q, e :: FinalizedAs(w.proposals, p, e) && FinalizedAs(w.proposals, q, e) ==> p == q)
  {
    Reached(txs);
    ProposalsExact(Run(GENESIS, txs).proposals, Run(GENESIS, txs).store);
  }

  // ---------------------------------------------------------------------- rewards

  ghost predicate IsReward(s: EventStore.Store, id: string) {
    id in s.events && s.events[id].etype == RewardIssued
  }

  /** No event is the basis of two rewards; a reward pays its basis event's actor what the rule gives and
      is never superseded; and a balance is the points of the organisation's rewarded events. */
  lemma RewardsOnce(txs: Script, org: string)
    ensures var s := Run(GENESIS, txs).store;
            && (forall id :: IsReward(s, id) ==> id !in s.supersede && exists rule :: PaysBasis(s, s.events[id], rule))
            && (forall id, jd, b | IsReward(s, id) && IsReward(s, jd) ::
                  b in RewardBasis(s.events[id]) && b in RewardBasis(s.events[jd]) ==> id == jd)
            && Balance(s, org) == SumOver(RewardedEvents(s, org), EventPoints(s))
            && Balance(s, org) <= 25 * |RewardedEvents(s, org)|
  {
    Reached(txs);
    var s := Run(GENESIS, txs).store;
    RewardsExact(s);
    BalanceIsPoints(s, org);
  }

  lemma RewardsExact(s: EventStore.Store)
    requires RewardsMatch(s) && GovernedFinal(s)
    ensures forall id :: IsReward(s, id) ==> id !in s.supersede && exists rule :: PaysBasis(s, s.events[id], rule)
    ensures forall id, jd, b | IsReward(s, id) && IsReward(s, jd) ::
              b in RewardBasis(s.events[id]) && b in RewardBasis(s.events[jd]) ==> id == jd
  {
    forall id, jd, b | IsReward(s, id) && IsReward(s, jd) && b in RewardBasis(s.events[id])
        && b in RewardBasis(s.events[jd])
      ensures id == jd
    {
      OneRewardPerEvent(s, id, jd);
    }
  }

  // ------------------------------------------------------- corrections and listings

  /** The effective payload of every event is defined: the original overlaid with the patches of its own
      chain, in order; and two original events never share a correction. */
  lemma CorrectionsEnd(txs: Script, id: string, jd: string)
    ensures var s := Run(GENESIS, txs).store;
            && (id in s.events ==>
                  && WholeChain(s, id, Corrections(s, id))
                  && EffectiveEvent(s, s.events[id]).Some?
                  && EffectiveEvent(s, s.events[id]).value.payload
                     == OverlayAll(s, s.events[id].payload, Corrections(s, id)))
            && (Original(s, id) && Original(s, jd) && id != jd ==>
                  forall x :: x in Corrections(s, id) ==> x !in Corrections(s, jd))
  {
    Reached(txs);
    var s := Run(GENESIS, txs).store;
    if id in s.events {
      EffectiveIsOverlay(s, id);
      if Original(s, id) && Original(s, jd) && id != jd {
        ChainsDisjoint(s, id, jd);
      }
    }
  }

  /** Every index lists exactly the events it should, each once, in strict (time, id) order, and just as
      filtering the list of all events would. */
  lemma ListingsAgree(txs: Script, sel: Selector, superseded: bool)
    ensures var s := Run(GENESIS, txs).store;
            && (forall id :: id in IndexedIds(s, sel) <==> id in s.events && Selects(sel, s.events[id]))
            && (forall e :: e in Listed(s, sel, superseded) <==>
                  e.id in s.events && s.events[e.id] == e && Selects(sel, e) && (superseded || e.id !in s.supersede))
            && Ordered(Listed(s, sel, superseded))
            && Listed(s, sel, superseded) == Filter(Listed(s, All, superseded), e => Selects(sel, e))
  {
    Reached(txs);
    var s := Run(GENESIS, txs).store;
    IndexedIdsSelect(s, sel);
    ListedExactly(s, sel, superseded);
    ListingIsFilter(s, sel, superseded);
  }

  // --------------------------------------------------------------------- accounts

  ghost predicate IsEcoRow(b: Book, k: RowKey) {
    k in b.rows && k.tag == EcoRow
  }

  /** An ECO balance is the sum of its log, a lot is credited at most once, trust stays between 0 and 100,
      and an active wallet has at least the verified base. */
  lemma AccountsMatch(txs: Script, a: string)
    ensures var w := Run(GENESIS, txs);
            && AssetsOf(w.book, a).eco == EcoLogged(w.book, a)
            && (forall k, l | IsEcoRow(w.book, k) && IsEcoRow(w.book, l) ::
                  w.book.rows[k].subject == w.book.rows[l].subject ==> k == l)
            && 0 <= AssetsOf(w.book, a).trust <= 100
            && (a in w.registry.wallets && w.registry.wallets[a].status == Active ==>
                AssetsOf(w.book, a).trust >= VERIFIED_TRUST)
  {
    Reached(txs);
  }

  // ----------------------------------------------------------------------- mirror

  /** Unless a lot waits in custody and its records are read differently, the service accepts every
      event the chaincode accepts. */
  lemma ServiceAcceptsWhatLedgerAccepts(s: EventStore.Store, t: EventType, subject: string, payload: Payload,
                                        str: Json -> string)
    requires TransitionAccepted(s, t, subject, payload)
    requires !(WorkflowMirror.WaitsInCustody(History(s, subject)) && WorkflowMirror.ReadingsDiffer(History(s, subject)))
    ensures WorkflowMirror.TransitionAllowed(WorkflowMirror.MirrorStatusOf(str, History(s, subject)), t)
  {
    WorkflowMirror.MirrorAllows(str, History(s, subject));
    assert WorkflowMirror.GateAdmits(StatusOf(History(s, subject)), t);
  }
}
