/** Who wrote what: every stored event was written by a role that may write it. */
module Authorship {
  import opened Values
  import opened Events
  import opened EventStore
  import opened Wallets
  import opened World
  import WorkflowRuns
  import Guarantees

  /** A governed event is the consortium's. Any other is by a role that its organisation may hold: one that
      may submit the type or, for a correction, the role and organisation that wrote the corrected event; and
      its wallet is registered, unless it is a consumer's own verification. */
  ghost predicate Authored(s: EventStore.Store, reg: Registry, e: Event) {
    && e.subject != "" && PayloadAccepted(e.etype, e.payload)
    && if Governed(e.etype) then e.actorMsp == ConsortiumMsp && e.actorRole == Authority
       else
         && BusinessMsp(e.actorMsp) && e.actorRole in MspRoles(e.actorMsp)
         && (e.etype != Correction ==> e.actorRole in Permitted(e.etype))
         && (e.etype == Correction ==>
               Target(e) in s.events && s.events[Target(e)].actorMsp == e.actorMsp
                   && s.events[Target(e)].actorRole == e.actorRole)
         && (e.actorWallet in reg.wallets
             || (e.actorWallet == "" && e.etype == ConsumerVerification && e.actorRole == Consumer))
  }

  ghost predicate AllAuthored(w: State) {
    forall id :: id in w.store.events ==> Authored(w.store, w.registry, w.store.events[id])
  }

  lemma AuthoredStays(w: State, next: State, e: Event)
    requires Kept(w, next) && Authored(w.store, w.registry, e)
    ensures Authored(next.store, next.registry, e)
  {
  }

  lemma SubmittedAuthored(w: State, c: Ctx, tx: Tx, next: State)
    requires tx.SubmitEvent? && Attempt(w, c, tx).Some? && Kept(w, next)
    ensures Authored(next.store, next.registry,
                     NewEvent(c, Caller(c).value, tx.etype, tx.subject, tx.payload, tx.eventId))
  {
    CallerIsBusiness(c);
    assert Caller(c).value.wallet in w.registry.wallets ==> Caller(c).value.wallet in next.registry.wallets;
  }

  lemma CorrectedAuthored(w: State, c: Ctx, tx: Tx, next: State)
    requires tx.CorrectEvent? && Attempt(w, c, tx).Some? && Kept(w, next) && tx.target in w.store.events
    ensures Authored(next.store, next.registry,
                     NewEvent(c, Caller(c).value, Correction, w.store.events[tx.target].subject,
                              CorrectionPayload(tx.target, tx.reason, tx.patch), tx.eventId))
  {
    CallerIsBusiness(c);
    CorrectShape(w, c, Caller(c).value, tx.eventId, tx.target, tx.reason, tx.patch);
    assert Caller(c).value.wallet in w.registry.wallets;
  }

  lemma FinalizedAuthored(w: State, c: Ctx, tx: Tx, next: State)
    requires tx.FinalizeProposal? && Attempt(w, c, tx).Some? && tx.proposalId in w.proposals
    requires Governed(w.proposals[tx.proposalId].etype)
    ensures var p := w.proposals[tx.proposalId];
            Authored(next.store, next.registry,
                     NewEvent(c, AuthorityOf(Caller(c).value), p.etype, p.subject, p.payload, tx.eventId))
  {
  }

  /** The event a transaction adds, if any, is authored; all others are the ones before. */
  lemma NewEventAuthored(w: State, c: Ctx, tx: Tx, next: State, id: string)
    requires Inv(w) && Attempt(w, c, tx).Some? && next == Used(Attempt(w, c, tx).value, c) && Kept(w, next)
    requires id in next.store.events && id !in w.store.events
    ensures Authored(next.store, next.registry, next.store.events[id])
  {
    WorkflowRuns.AcceptedShape(w, c, tx);
    match tx {
      case SubmitEvent(_, _, _, _) => SubmittedAuthored(w, c, tx, next);
      case CorrectEvent(_, _, _, _) => CorrectedAuthored(w, c, tx, next);
      case FinalizeProposal(proposalId, _) =>
        WorkflowRuns.GovernedProposal(w, proposalId);
        FinalizedAuthored(w, c, tx, next);
      case _ =>
    }
  }

  lemma StepKeepsAuthored(w: State, c: Ctx, tx: Tx)
    requires Inv(w) && AllAuthored(w)
    ensures AllAuthored(Step(w, c, tx))
  {
    StepKeeps(w, c, tx);
    StepIs(w, c, tx);
    var next := Step(w, c, tx);
    if next != w {
      forall id | id in next.store.events ensures Authored(next.store, next.registry, next.store.events[id]) {
        if id in w.store.events {
          AuthoredStays(w, next, w.store.events[id]);
        } else {
          NewEventAuthored(w, c, tx, next, id);
        }
      }
    }
  }

  /** The payload fields that later computations read of an event. */
  function FieldsRead(t: EventType): set<string> {
    match t
    case LabVerification => {"quality_class"}
    case ResidueGeneration => {"weight_kg", "origin_batch"}
    case ResidueCustody => {"weight_kg", "accepted", "residue_id"}
    case Valorization => {"input_kg", "rejected_kg", "outputs", "residue_id"}
    case UsefulOutput => {"output_type", "quantity", "residue_id"}
    case ReturnOrSale => {"residue_id"}
    case EnvAccounting => {"residue_id"}
    case Correction => {"supersedes_event", "corrected_payload"}
    case RewardIssued => {"recipient", "amount", "reward_rule", "basis_events"}
    case ReviewFlag => {"subject_event"}
    case ReviewResolution => {"flag_event"}
    case _ => {}
  }

  /** In every reachable state a stored event has every field that is read of it later: by reconciliation,
      rewards, minting, the gate and corrections. */
  lemma FieldsReadArePresent(txs: Guarantees.Script, id: string)
    requires id in Run(GENESIS, txs).store.events
    ensures var e := Run(GENESIS, txs).store.events[id]; FieldsRead(e.etype) <= e.payload.Keys
  {
    StoredEventsAuthored(txs);
    RequiredAreRead(Run(GENESIS, txs).store.events[id].etype);
  }

  /** A residue type or output type that is given as a text is a known one. */
  lemma EnumerationsKnown(txs: Guarantees.Script, id: string)
    requires id in Run(GENESIS, txs).store.events
    ensures var e := Run(GENESIS, txs).store.events[id];
            var residue, output := Field(e.payload, "residue_type"), Field(e.payload, "output_type");
            && (e.etype == ResidueGeneration && IsString(residue) ==>
                  AsString(residue) in ["pomace", "alpeorujo", "stones", "leaves", "pruning", "wastewater"])
            && (e.etype == UsefulOutput || e.etype == ReturnOrSale ==> IsString(output) ==>
                  AsString(output) in ["bioenergy_kwh", "compost_kg", "biochar_kg", "polyphenols_g", "fertilizer_kg",
                                       "feedstock_kg", "adsorbent_kg"])
  {
    StoredEventsAuthored(txs);
    assert Authored(Run(GENESIS, txs).store, Run(GENESIS, txs).registry, Run(GENESIS, txs).store.events[id]);
  }

  lemma RequiredAreRead(t: EventType)
    ensures FieldsRead(t) <= RequiredFields(t)
  {
  }

  /** In every reachable state every stored event was written by someone who may write it. */
  lemma {:induction false} StoredEventsAuthored(txs: Guarantees.Script)
    ensures AllAuthored(Run(GENESIS, txs))
  {
    if txs != [] {
      var front, last := txs[..|txs| - 1], txs[|txs| - 1];
      StoredEventsAuthored(front);
      Guarantees.Reached(front);
      StepKeepsAuthored(Run(GENESIS, front), last.0, last.1);
    }
  }
}
