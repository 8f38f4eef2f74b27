/** What single event writes and whole runs do to workflow histories. */
module WorkflowRuns {
  import opened Values
  import opened Events
  import opened Listing
  import opened Workflow
  import opened Histories
  import opened EventStore
  import opened World

  // ------------------------------------------------------------------ single steps

  lemma AcceptedShape(w: State, c: Ctx, tx: Tx)
    requires Attempt(w, c, tx).Some?
    ensures tx.SubmitEvent? ==>
              var e := NewEvent(c, Caller(c).value, tx.etype, tx.subject, tx.payload, tx.eventId);
              && Attempt(w, c, tx).value.store == Put(w.store, e) && e.id !in w.store.events
              && TransitionAccepted(w.store, tx.etype, tx.subject, tx.payload) && tx.etype != Correction
    ensures tx.FinalizeProposal? ==>
              tx.proposalId in w.proposals
              && var p := w.proposals[tx.proposalId];
                 var e := NewEvent(c, AuthorityOf(Caller(c).value), p.etype, p.subject, p.payload, tx.eventId);
                 Attempt(w, c, tx).value.store == Put(w.store, e) && e.id !in w.store.events
    ensures tx.CorrectEvent? ==>
              tx.target in w.store.events && tx.target !in w.store.supersede
              && var e := NewEvent(c, Caller(c).value, Correction, w.store.events[tx.target].subject,
                                   CorrectionPayload(tx.target, tx.reason, tx.patch), tx.eventId);
                 Attempt(w, c, tx).value.store == Supersede(Put(w.store, e), tx.target, e.id) && e.id !in w.store.events
    ensures !tx.SubmitEvent? && !tx.FinalizeProposal? && !tx.CorrectEvent? ==> Attempt(w, c, tx).value.store == w.store
  {
  }

  /** An accepted workflow event leaves its subject's history valid exactly when every event listed
      after it has its own type. */
  lemma SubmitKeepsValidIff(w: State, c: Ctx, tx: Tx)
    requires Inv(w) && tx.SubmitEvent? && FlowOf(tx.etype) != Unknown && Attempt(w, c, tx).Some?
    ensures var e := NewEvent(c, Caller(c).value, tx.etype, tx.subject, tx.payload, tx.eventId);
            var h := History(w.store, tx.subject);
            StatusOf(h).valid
            && (StatusOf(History(Attempt(w, c, tx).value.store, tx.subject)).valid <==>
                forall x :: x in h && Before(e, x) ==> x.etype == e.etype)
  {
    AcceptedShape(w, c, tx);
    var e := NewEvent(c, Caller(c).value, tx.etype, tx.subject, tx.payload, tx.eventId);
    PutKeepsValidIff(w.store, e);
  }

  lemma PutKeepsValidIff(s: EventStore.Store, e: Event)
    requires StoreInv(s) && e.id !in s.events && Managed(e) && Admits(StatusOf(History(s, e.subject)), e.etype)
    ensures var h := History(s, e.subject);
            StatusOf(History(Put(s, e), e.subject)).valid <==> forall x :: x in h && Before(e, x) ==> x.etype == e.etype
  {
    var h := History(s, e.subject);
    HistoryFacts(s, e.subject);
    NotSuperseded(s, e.id);
    HistoryAfterPut(s, e, e.subject);
    forall x | x in h ensures x.id != e.id { InWorkflowSet(s, e.subject, x); }
    InsertedValidIff(h, e);
  }

  lemma InsertedValidIff(h: seq<Event>, e: Event)
    requires Ordered(h) && AllManaged(h) && Admits(StatusOf(h), e.etype) && forall x :: x in h ==> x.id != e.id
    ensures StatusOf(Insert(h, e)).valid <==> forall x :: x in h && Before(e, x) ==> x.etype == e.etype
  {
    var j := InsertSplits(h, e);
    InsertValidIff(h, e, j);
    forall i | 0 <= i < |h| ensures Before(e, h[i]) <==> j <= i {
      BeforeIsStrictOrder(e, h[i], e);
    }
  }

  /** An accepted correction leaves a valid history valid exactly when its target is not in the history,
      is its last event, or shares its type with another event of it. */
  lemma CorrectKeepsValidIff(w: State, c: Ctx, tx: Tx, e: Event)
    requires Inv(w) && tx.CorrectEvent? && Attempt(w, c, tx).Some?
    requires tx.target in w.store.events && e == w.store.events[tx.target]
    requires StatusOf(History(w.store, e.subject)).valid
    ensures StatusOf(History(Attempt(w, c, tx).value.store, e.subject)).valid <==>
            Removable(History(w.store, e.subject), e)
  {
    AcceptedShape(w, c, tx);
    var n := NewEvent(c, Caller(c).value, Correction, e.subject, CorrectionPayload(tx.target, tx.reason, tx.patch),
                      tx.eventId);
    CorrectedValidIff(w.store, n, tx.target);
  }

  ghost predicate Removable(h: seq<Event>, e: Event) {
    !Managed(e) || (h != [] && e == h[|h| - 1]) || exists x :: x in h && x != e && x.etype == e.etype
  }

  lemma CorrectedValidIff(s: EventStore.Store, n: Event, target: string)
    requires StoreInv(s) && n.id !in s.events && n.etype == Correction && target in s.events && target !in s.supersede
    requires StatusOf(History(s, s.events[target].subject)).valid
    ensures var e := s.events[target];
            StatusOf(History(Supersede(Put(s, n), target, n.id), e.subject)).valid <==>
                Removable(History(s, e.subject), e)
  {
    NotSuperseded(s, n.id);
    HistoryAfterPut(s, n, s.events[target].subject);
    PutKeepsTables(s, n);
    SupersedeValidIff(Put(s, n), target, n.id);
  }

  lemma SupersedeValidIff(s: EventStore.Store, target: string, next: string)
    requires KeysMatch(s) && target in s.events && target !in s.supersede
    requires StatusOf(History(s, s.events[target].subject)).valid
    ensures var e := s.events[target];
            var h := History(s, e.subject);
            && (Managed(e) <==> e in h)
            && (StatusOf(History(Supersede(s, target, next), e.subject)).valid <==> Removable(h, e))
  {
    var e := s.events[target];
    var h := History(s, e.subject);
    HistoryFacts(s, e.subject);
    InWorkflowSet(s, e.subject, e);
    var k := HistoryAfterSupersede(s, target, next, e.subject);
    if Managed(e) {
      RemoveValidIff(h, k);
      RemovableAt(h, k);
    }
  }

  lemma RemovableAt(h: seq<Event>, k: nat)
    requires Ordered(h) && k < |h| && Managed(h[k])
    ensures Removable(h, h[k]) <==> k == |h| - 1 || exists m :: 0 <= m < |h| && m != k && h[m].etype == h[k].etype
  {
    forall i | 0 <= i < |h| && i != k ensures h[i] != h[k] {
      BeforeIsStrictOrder(h[i], h[k], h[i]);
    }
    if x :| x in h && x != h[k] && x.etype == h[k].etype {
      var m :| 0 <= m < |h| && h[m] == x;
      assert m != k && h[m].etype == h[k].etype;
    }
    if m :| 0 <= m < |h| && m != k && h[m].etype == h[k].etype {
      assert h[m] in h && h[m] != h[k];
    }
  }

  // --------------------------------------------------------------------- whole runs

  /** The step is late enough to be listed last, and corrects no workflow event. */
  ghost predicate InOrder(w: State, c: Ctx, tx: Tx) {
    match tx
    case SubmitEvent(eventId, t, subject, payload) =>
      FlowOf(t) != Unknown && Caller(c).Some? ==>
        forall x :: x in History(w.store, subject) ==>
            Before(x, NewEvent(c, Caller(c).value, t, subject, payload, eventId))
    case CorrectEvent(_, target, _, _) => target in w.store.events ==> !Managed(w.store.events[target])
    case _ => true
  }

  ghost predicate RunInOrder(w: State, txs: seq<(Ctx, Tx)>) {
    txs != [] ==>
      var front, last := txs[..|txs| - 1], txs[|txs| - 1];
      RunInOrder(w, front) && InOrder(Run(w, front), last.0, last.1)
  }

  /** A history a run in order may build: a prefix of a step language, with custody discipline. */
  ghost predicate Lawful(h: seq<Event>) {
    StatusOf(h).valid && CustodyDiscipline(h)
  }

  ghost predicate HistoriesLawful(s: EventStore.Store) {
    && (forall subject :: Lawful(History(s, subject)))
    && (forall id :: id in s.events && Managed(s.events[id]) ==> id !in s.supersede)
  }

  /** Every residue lot names a batch whose history has reached milling. */
  ghost predicate OriginsMilled(s: EventStore.Store) {
    forall id :: id in s.events && s.events[id].etype == ResidueGeneration ==>
      OriginReady(s, AsString(Field(s.events[id].payload, "origin_batch")))
  }

  lemma AppendedHistory(s: EventStore.Store, e: Event)
    requires StoreInv(s) && e.id !in s.events && Managed(e)
    requires forall x :: x in History(s, e.subject) ==> Before(x, e)
    ensures History(Put(s, e), e.subject) == History(s, e.subject) + [e]
  {
    NotSuperseded(s, e.id);
    HistoryAfterPut(s, e, e.subject);
    InsertLast(History(s, e.subject), e);
  }

  /** Appending a step keeps a batch that has reached milling past milling. */
  lemma AppendKeepsReady(h: seq<Event>, e: Event)
    requires AllManaged(h) && Admits(StatusOf(h), e.etype)
    requires StatusOf(h).started && StatusOf(h).flow == Product && StatusOf(h).stepNumber >= StepIndex(Milling) + 1
    ensures var s := StatusOf(h + [e]); s.started && s.flow == Product && s.stepNumber >= StepIndex(Milling) + 1
  {
    var g := h + [e];
    InsertValidIff(h, e, |h|);
    assert h[..|h|] + [e] + h[|h|..] == g;
    assert AllManaged(g);
    ManagedTypes(h);
    ManagedTypes(g);
    ValidIsLinked(h);
    ValidIsLinked(g);
    AdmittedIsLatest(h, e.etype, |h| - 1);
    AdmittedIsLatest(h, e.etype, 0);
  }

  lemma PutKeepsLawful(s: EventStore.Store, e: Event)
    requires StoreInv(s) && HistoriesLawful(s) && OriginsMilled(s) && e.id !in s.events
    requires Managed(e) ==> Admits(StatusOf(History(s, e.subject)), e.etype)
    requires Managed(e) ==> forall x :: x in History(s, e.subject) ==> Before(x, e)
    requires e.etype == ResidueGeneration ==> OriginReady(s, AsString(Field(e.payload, "origin_batch")))
    ensures HistoriesLawful(Put(s, e)) && OriginsMilled(Put(s, e))
  {
    NotSuperseded(s, e.id);
    var t := Put(s, e);
    forall subject
      ensures Lawful(History(t, subject))
      ensures OriginReady(s, subject) ==> OriginReady(t, subject)
    {
      HistoryFacts(s, subject);
      HistoryAfterPut(s, e, subject);
      assert Lawful(History(s, subject));
      if subject == e.subject && Managed(e) {
        AppendedHistory(s, e);
        AppendKeepsDiscipline(History(s, subject), e);
        if OriginReady(s, subject) { AppendKeepsReady(History(s, subject), e); }
      }
    }
  }

  lemma SupersedeKeepsLawful(s: EventStore.Store, target: string, next: string)
    requires KeysMatch(s) && HistoriesLawful(s) && OriginsMilled(s) && target in s.events && !Managed(s.events[target])
    ensures HistoriesLawful(Supersede(s, target, next)) && OriginsMilled(Supersede(s, target, next))
  {
    var t := Supersede(s, target, next);
    forall subject ensures History(t, subject) == History(s, subject) {
      HistoryFacts(s, subject);
      InWorkflowSet(s, subject, s.events[target]);
      var _ := HistoryAfterSupersede(s, target, next, subject);
    }
    forall subject ensures Lawful(History(t, subject)) {
      assert Lawful(History(s, subject));
    }
    forall id | id in t.events && t.events[id].etype == ResidueGeneration
      ensures OriginReady(t, AsString(Field(t.events[id].payload, "origin_batch")))
    {
      assert OriginReady(s, AsString(Field(s.events[id].payload, "origin_batch")));
    }
  }

  lemma CorrectedKeepsLawful(s: EventStore.Store, e: Event, target: string)
    requires StoreInv(s) && HistoriesLawful(s) && OriginsMilled(s) && e.id !in s.events && e.etype == Correction
    requires target in s.events && !Managed(s.events[target])
    ensures HistoriesLawful(Supersede(Put(s, e), target, e.id)) && OriginsMilled(Supersede(Put(s, e), target, e.id))
  {
    PutKeepsLawful(s, e);
    PutKeepsTables(s, e);
    SupersedeKeepsLawful(Put(s, e), target, e.id);
  }

  lemma SubmittedKeepsLawful(w: State, c: Ctx, tx: Tx)
    requires Inv(w) && HistoriesLawful(w.store) && OriginsMilled(w.store) && InOrder(w, c, tx)
    requires tx.SubmitEvent? && Attempt(w, c, tx).Some?
    ensures HistoriesLawful(Attempt(w, c, tx).value.store) && OriginsMilled(Attempt(w, c, tx).value.store)
  {
    AcceptedShape(w, c, tx);
    PutKeepsLawful(w.store, NewEvent(c, Caller(c).value, tx.etype, tx.subject, tx.payload, tx.eventId));
  }

  lemma AttemptKeepsLawful(w: State, c: Ctx, tx: Tx)
    requires Inv(w) && HistoriesLawful(w.store) && OriginsMilled(w.store) && InOrder(w, c, tx)
    requires Attempt(w, c, tx).Some?
    ensures HistoriesLawful(Attempt(w, c, tx).value.store) && OriginsMilled(Attempt(w, c, tx).value.store)
  {
    match tx {
      case SubmitEvent(_, _, _, _) => SubmittedKeepsLawful(w, c, tx);
      case FinalizeProposal(_, _) => FinalizedKeepsLawful(w, c, tx);
      case CorrectEvent(_, _, _, _) => CorrectingKeepsLawful(w, c, tx);
      case _ => AcceptedShape(w, c, tx);
    }
  }

  lemma CorrectingKeepsLawful(w: State, c: Ctx, tx: Tx)
    requires Inv(w) && HistoriesLawful(w.store) && OriginsMilled(w.store) && InOrder(w, c, tx)
    requires tx.CorrectEvent? && Attempt(w, c, tx).Some?
    ensures HistoriesLawful(Attempt(w, c, tx).value.store) && OriginsMilled(Attempt(w, c, tx).value.store)
  {
    AcceptedShape(w, c, tx);
    var e := NewEvent(c, Caller(c).value, Correction, w.store.events[tx.target].subject,
                      CorrectionPayload(tx.target, tx.reason, tx.patch), tx.eventId);
    CorrectedKeepsLawful(w.store, e, tx.target);
  }

  lemma FinalizedKeepsLawful(w: State, c: Ctx, tx: Tx)
    requires Inv(w) && HistoriesLawful(w.store) && OriginsMilled(w.store)
    requires tx.FinalizeProposal? && Attempt(w, c, tx).Some?
    ensures HistoriesLawful(Attempt(w, c, tx).value.store) && OriginsMilled(Attempt(w, c, tx).value.store)
  {
    AcceptedShape(w, c, tx);
    GovernedProposal(w, tx.proposalId);
    var p := w.proposals[tx.proposalId];
    GovernedKeepsLawful(w.store, NewEvent(c, AuthorityOf(Caller(c).value), p.etype, p.subject, p.payload, tx.eventId));
  }

  lemma GovernedKeepsLawful(s: EventStore.Store, e: Event)
    requires StoreInv(s) && HistoriesLawful(s) && OriginsMilled(s) && e.id !in s.events && Governed(e.etype)
    ensures HistoriesLawful(Put(s, e)) && OriginsMilled(Put(s, e))
  {
    assert !Managed(e);
    PutKeepsLawful(s, e);
  }

  lemma StepKeepsLawful(w: State, c: Ctx, tx: Tx)
    requires Inv(w) && HistoriesLawful(w.store) && OriginsMilled(w.store) && InOrder(w, c, tx)
    ensures HistoriesLawful(Step(w, c, tx).store) && OriginsMilled(Step(w, c, tx).store)
  {
    StepIs(w, c, tx);
    if Step(w, c, tx) != w {
      AttemptKeepsLawful(w, c, tx);
    }
  }

  lemma GovernedProposal(w: State, id: string)
    requires Inv(w) && id in w.proposals
    ensures Governed(w.proposals[id].etype)
  {
  }

  lemma EmptyHistories(subject: string)
    ensures History(EventStore.EMPTY, subject) == []
  {
  }

  /** In every run in order, every subject's history stays a prefix of a step language with custody
      discipline, and every residue lot's batch stays valid and past milling. */
  lemma {:induction false} RunKeepsLawful(txs: seq<(Ctx, Tx)>)
    requires RunInOrder(GENESIS, txs)
    ensures HistoriesLawful(Run(GENESIS, txs).store) && OriginsMilled(Run(GENESIS, txs).store)
  {
    GenesisInv();
    if txs == [] {
      forall subject ensures Lawful(History(EventStore.EMPTY, subject)) { EmptyHistories(subject); }
    } else {
      var front, last := txs[..|txs| - 1], txs[|txs| - 1];
      RunKeepsLawful(front);
      RunKeeps(GENESIS, front);
      StepKeepsLawful(Run(GENESIS, front), last.0, last.1);
    }
  }

  /** Spelled out: the step types of every history, in any state of a run in order. */
  lemma HistoriesAreWords(txs: seq<(Ctx, Tx)>, subject: string)
    requires RunInOrder(GENESIS, txs)
    ensures var h := History(Run(GENESIS, txs).store, subject);
            && (StepTypes(h) <= PRODUCT_STEPS || CircularPrefix(StepTypes(h)))
            && CustodyDiscipline(h)
  {
    RunKeepsLawful(txs);
    assert Lawful(History(Run(GENESIS, txs).store, subject));
    RecognisesStepLanguages(History(Run(GENESIS, txs).store, subject));
  }
}
