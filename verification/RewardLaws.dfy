/** When a reward is due, said on the listed events and their payload fields alone. */
module RewardLaws {
  import opened Values
  import opened Events
  import opened EventStore
  import opened MassBalance
  import opened Governance
  import opened World
  import WorkflowRuns

  // --------------------------------------------------------------------- what is listed

  predicate Flags(f: Event, id: string) {
    f.etype == ReviewFlag && AsString(Field(f.payload, "subject_event")) == id
  }

  predicate Resolves(r: Event, flag: string) {
    r.etype == ReviewResolution && AsString(Field(r.payload, "flag_event")) == flag
  }

  ghost predicate LastFlag(listed: seq<Event>, id: string, k: int) {
    0 <= k < |listed| && Flags(listed[k], id) && forall j :: k < j < |listed| ==> !Flags(listed[j], id)
  }

  /** The last listed flag of the event is named by no listed resolution. */
  ghost predicate UnderReview(listed: seq<Event>, id: string) {
    exists k :: LastFlag(listed, id, k) && forall r :: r in listed ==> !Resolves(r, listed[k].id)
  }

  /** A listed reward of the rule names the event among its basis events. */
  predicate HasReward(r: Event, basis: string, rule: string) {
    && r.etype == RewardIssued && AsString(Field(r.payload, "reward_rule")) == rule
    && Field(r.payload, "basis_events").JArray?
    && exists v :: v in Field(r.payload, "basis_events").items && AsString(v) == basis
  }

  /** What the catalogue pays for an event of a type. */
  predicate Pays(t: EventType, rule: string, amount: int) {
    || (t == ResidueCustody && rule == "residue_delivery" && amount == 10)
    || (t == LabVerification && rule == "quality_criteria" && amount == 15)
    || (t == ReturnOrSale && rule == "soil_return" && amount == 20)
    || (t == UsefulOutput && rule == "verified_recovery" && amount == 25)
    || (t == Milling && rule == "prompt_records" && amount == 5)
    || (t == ConsumerVerification && rule == "circular_participation" && amount == 1)
  }

  /** The event's lot is named and reconciles without an issue. */
  ghost predicate LotBalances(s: Store, b: Event) {
    var lot := AsString(Field(b.payload, "residue_id"));
    lot != "" && IssuesOf(TotalsOf(Listed(s, OfSubject(lot), false))) == []
  }

  predicate GoodClass(b: Event) {
    var quality := AsString(Field(b.payload, "quality_class"));
    quality == "extra_virgin" || quality == "organic_extra_virgin"
  }

  /** A listed event earns a reward: it pays its author what the catalogue says, was not rewarded by that rule,
      is not under review, and meets the condition of its rule. */
  ghost predicate Earns(s: Store, b: Event, d: Due) {
    var listed := Listed(s, All, false);
    && b in listed && d.basis == b.id && d.recipient == b.actorOrg && Pays(b.etype, d.rule, d.amount)
    && (forall r :: r in listed ==> !HasReward(r, b.id, d.rule))
    && !UnderReview(listed, b.id)
    && (d.rule == "soil_return" || d.rule == "verified_recovery" ==> LotBalances(s, b))
    && (d.rule == "quality_criteria" ==> GoodClass(b))
  }

  // ----------------------------------------------------------------------- exactly due

  lemma {:induction false} FlagsAreLast(listed: seq<Event>, id: string)
    ensures id in FlagsOf(listed) <==> exists k :: LastFlag(listed, id, k)
    ensures forall k :: LastFlag(listed, id, k) ==> id in FlagsOf(listed) && FlagsOf(listed)[id] == listed[k].id
  {
    if listed != [] {
      var n := |listed| - 1;
      var front := listed[..n];
      FlagsAreLast(front, id);
      if Flags(listed[n], id) {
        assert LastFlag(listed, id, n);
      } else {
        forall k ensures LastFlag(listed, id, k) <==> LastFlag(front, id, k) {
          LastFlagOfFront(listed, id, k);
        }
        forall k | LastFlag(listed, id, k) ensures listed[k] == front[k] {}
      }
    }
  }

  lemma LastFlagOfFront(listed: seq<Event>, id: string, k: int)
    requires listed != [] && !Flags(listed[|listed| - 1], id)
    ensures LastFlag(listed, id, k) <==> LastFlag(listed[..|listed| - 1], id, k)
  {
    var front := listed[..|listed| - 1];
    assert forall j :: 0 <= j < |front| ==> front[j] == listed[j];
  }

  lemma ResolvedIs(listed: seq<Event>, flag: string)
    ensures flag in ResolvedOf(listed) <==> exists r :: r in listed && Resolves(r, flag)
  {
    if r :| r in listed && Resolves(r, flag) {
      var i :| 0 <= i < |listed| && listed[i] == r;
      assert AsString(Field(listed[i].payload, "flag_event")) in ResolvedOf(listed);
    }
    if flag in ResolvedOf(listed) {
      var i :| 0 <= i < |listed| && listed[i].etype == ReviewResolution
               && AsString(Field(listed[i].payload, "flag_event")) == flag;
      assert Resolves(listed[i], flag) && listed[i] in listed;
    }
  }

  /** The two maps of the scan hold exactly the events under review. */
  lemma OpenIsUnderReview(listed: seq<Event>, id: string)
    ensures id in OpenFlags(listed) <==> UnderReview(listed, id)
  {
    FlagsAreLast(listed, id);
    if k :| LastFlag(listed, id, k) {
      ResolvedIs(listed, listed[k].id);
      forall j | LastFlag(listed, id, j) ensures j == k {}
    }
  }

  lemma BasisItems(r: Event, basis: string)
    ensures basis in RewardBasis(r) <==>
              && Field(r.payload, "basis_events").JArray?
              && exists v :: v in Field(r.payload, "basis_events").items && AsString(v) == basis
  {
    var v := Field(r.payload, "basis_events");
    if v.JArray? {
      if basis in RewardBasis(r) {
        var i :| 0 <= i < |RewardBasis(r)| && RewardBasis(r)[i] == basis;
        assert v.items[i] in v.items;
      }
      if x :| x in v.items && AsString(x) == basis {
        var i :| 0 <= i < |v.items| && v.items[i] == x;
        assert RewardBasis(r)[i] == basis;
      }
    }
  }

  lemma RewardedIs(listed: seq<Event>, basis: string, rule: string)
    ensures Rewarded(listed, basis, rule) <==> exists r :: r in listed && HasReward(r, basis, rule)
  {
    if i :| 0 <= i < |listed| && listed[i].etype == RewardIssued && RewardRule(listed[i]) == rule
            && basis in RewardBasis(listed[i]) {
      BasisItems(listed[i], basis);
      assert HasReward(listed[i], basis, rule);
    }
    if r :| r in listed && HasReward(r, basis, rule) {
      var i :| 0 <= i < |listed| && listed[i] == r;
      BasisItems(r, basis);
    }
  }

  lemma CatalogueIs(t: EventType, rule: Rule)
    requires rule in RULES
    ensures rule.etype == t <==> Pays(t, rule.id, rule.amount)
    ensures rule.needsBalance <==> rule.id == "soil_return" || rule.id == "verified_recovery"
  {
  }

  lemma RuleFor(t: EventType, id: string, amount: int) returns (rule: Rule)
    requires Pays(t, id, amount)
    ensures rule in RULES && rule.etype == t && rule.id == id && rule.amount == amount
  {
    var i := match t
      case ResidueCustody => 0
      case LabVerification => 1
      case ReturnOrSale => 2
      case UsefulOutput => 3
      case Milling => 4
      case _ => 5;
    rule := RULES[i];
  }

  lemma RuleEarns(s: Store, b: Event, rule: Rule)
    requires rule in RULES && b in Listed(s, All, false)
    ensures IsDue(s, Listed(s, All, false), b, rule) <==> rule.etype == b.etype && Earns(s, b, DueFor(b, rule))
  {
    var listed := Listed(s, All, false);
    OpenIsUnderReview(listed, b.id);
    RewardedIs(listed, b.id, rule.id);
    CatalogueIs(b.etype, rule);
  }

  /** A reward is due exactly when some listed event earns it. */
  lemma DueExactly(s: Store, d: Due)
    ensures DueIn(s, d) <==> exists b :: Earns(s, b, d)
  {
    var listed := Listed(s, All, false);
    if DueIn(s, d) {
      var b :| b in listed && DueOn(s, listed, b, d);
      var rule :| rule in RULES && IsDue(s, listed, b, rule) && d == DueFor(b, rule);
      RuleEarns(s, b, rule);
    }
    if b :| Earns(s, b, d) {
      var rule := RuleFor(b.etype, d.rule, d.amount);
      RuleEarns(s, b, rule);
      assert d == DueFor(b, rule);
      assert DueOn(s, listed, b, d);
    }
  }

  /** A reward payload is allowed exactly when it names one basis event and claims what that event earns. */
  lemma AllowedExactly(s: Store, p: Payload)
    ensures RewardAllowed(s, p) <==>
              var basis := Field(p, "basis_events");
              && basis.JArray? && |basis.items| == 1
              && exists b :: Earns(s, b, Due(AsString(Field(p, "recipient")), Truncate(AsFloat(Field(p, "amount"))),
                                             AsString(Field(p, "reward_rule")), AsString(basis.items[0])))
  {
    var basis := Field(p, "basis_events");
    if basis.JArray? && |basis.items| == 1 {
      DueExactly(s, Claim(p, AsString(basis.items[0])));
    }
  }

  /** An event under review earns nothing. */
  lemma UnderReviewEarnsNothing(s: Store, d: Due)
    requires DueIn(s, d)
    ensures !UnderReview(Listed(s, All, false), d.basis)
  {
    DueExactly(s, d);
  }

  /** An event that is listed, not under review and not yet rewarded is due when its rule asks for no balance. */
  lemma PlainEventEarns(s: Store, b: Event, rule: string, amount: int)
    requires b in Listed(s, All, false) && Pays(b.etype, rule, amount)
    requires rule != "soil_return" && rule != "verified_recovery" && (rule == "quality_criteria" ==> GoodClass(b))
    requires !UnderReview(Listed(s, All, false), b.id)
    requires forall r :: r in Listed(s, All, false) ==> !HasReward(r, b.id, rule)
    ensures DueIn(s, Due(b.actorOrg, amount, rule, b.id))
  {
    DueExactly(s, Due(b.actorOrg, amount, rule, b.id));
    assert Earns(s, b, Due(b.actorOrg, amount, rule, b.id));
  }

  // --------------------------------------------------------------------- when written

  /** Any transaction that writes a reward writes one that its basis event earned in the state before: in
      particular the basis was not under review, and its lot balanced where the rule asks for it. */
  lemma WrittenRewardsEarned(w: State, c: Ctx, tx: Tx, id: string)
    requires id !in w.store.events && id in Step(w, c, tx).store.events
    requires Step(w, c, tx).store.events[id].etype == RewardIssued
    ensures var p := Step(w, c, tx).store.events[id].payload;
            var basis := Field(p, "basis_events");
            && basis.JArray? && |basis.items| == 1
            && exists b :: Earns(w.store, b,
                                 Due(AsString(Field(p, "recipient")), Truncate(AsFloat(Field(p, "amount"))),
                                     AsString(Field(p, "reward_rule")), AsString(basis.items[0])))
  {
    StepIs(w, c, tx);
    WorkflowRuns.AcceptedShape(w, c, tx);
    FinalizedReward(w, c, tx);
    AllowedExactly(w.store, Step(w, c, tx).store.events[id].payload);
  }

  lemma FinalizedReward(w: State, c: Ctx, tx: Tx)
    requires Attempt(w, c, tx).Some?
    ensures tx.SubmitEvent? ==> tx.etype != RewardIssued
    ensures tx.FinalizeProposal? ==>
              && tx.proposalId in w.proposals
              && (w.proposals[tx.proposalId].etype == RewardIssued ==>
                    RewardAllowed(w.store, w.proposals[tx.proposalId].payload))
  {
  }
}
