/** What the service's reconciliation and rewards say of the stored entries and their payload fields alone. */
module LocalRewardLaws {
  import opened Values
  import opened Events
  import opened LocalLedger
  import opened LocalIncentives
  import MassBalance
  import RewardLaws
  import WorkflowMirror

  // ------------------------------------------------------------------------ totals

  lemma AddJoin(x: MassBalance.Totals, y: MassBalance.Totals, e: Entry)
    ensures AddEntry(y, e).None? <==> AddEntry(MassBalance.Plus(x, y), e).None?
    ensures AddEntry(y, e).Some? ==>
              AddEntry(MassBalance.Plus(x, y), e) == Some(MassBalance.Plus(x, AddEntry(y, e).value))
  {
  }

  /** The totals of a listing are the sums over its parts, and cannot be read when those of a part cannot. */
  lemma {:induction false} LotJoin(a: seq<Entry>, b: seq<Entry>, lot: string)
    ensures LotTotals(a + b, lot) ==
            if LotTotals(a, lot).None? || LotTotals(b, lot).None? then None
            else Some(MassBalance.Plus(LotTotals(a, lot).value, LotTotals(b, lot).value))
  {
    if b == [] {
      assert a + b == a;
    } else {
      var n := |b| - 1;
      assert (a + b)[..|a + b| - 1] == a + b[..n];
      LotJoin(a, b[..n], lot);
      if LotTotals(a, lot).Some? && LotTotals(b[..n], lot).Some? {
        AddJoin(LotTotals(a, lot).value, LotTotals(b[..n], lot).value, b[n]);
      }
    }
  }

  function Kg(p: Payload, key: string): real {
    if Number(Field(p, key)).Some? then Number(Field(p, key)).value else 0.0
  }

  /** The fields that count are numbers, and the outputs of a valorization can be read. */
  predicate Legible(e: Entry) {
    var p := e.body.payload;
    && (e.body.etype == ResidueGeneration || e.body.etype == ResidueCustody ==> Number(Field(p, "weight_kg")).Some?)
    && (e.body.etype == Valorization ==>
          && Number(Field(p, "input_kg")).Some?
          && ("rejected_kg" in p ==> Number(p["rejected_kg"]).Some?)
          && OutputsReadable(p))
  }

  /** One current event of the lot counts where its type says; others, and superseded ones, count nothing. */
  lemma LotOfOne(e: Entry, lot: string)
    ensures var t, p := LotTotals([e], lot), e.body.payload;
            if !OfLot(e, lot) then t == Some(MassBalance.ZERO)
            else
              && (t.Some? <==> Legible(e))
              && (t.Some? ==>
                    && t.value.generated == (if e.body.etype == ResidueGeneration then Kg(p, "weight_kg") else 0.0)
                    && t.value.transferred == (if e.body.etype == ResidueCustody then Kg(p, "weight_kg") else 0.0)
                    && t.value.accepted == (if e.body.etype == ResidueCustody
                                               && WorkflowMirror.Truthy(Field(p, "accepted"))
                                            then Kg(p, "weight_kg") else 0.0)
                    && t.value.transformed == (if e.body.etype == Valorization then Kg(p, "input_kg") else 0.0)
                    && t.value.rejected == (if e.body.etype == Valorization then Kg(p, "rejected_kg") else 0.0))
  {
    assert [e][..0] == [];
  }

  /** A lot's totals can be read exactly when every current event of it can. */
  lemma {:induction false} TotalsReadable(entries: seq<Entry>, lot: string)
    ensures LotTotals(entries, lot).Some? <==>
              forall i :: 0 <= i < |entries| && OfLot(entries[i], lot) ==> Legible(entries[i])
  {
    if entries != [] {
      var n := |entries| - 1;
      TotalsReadable(entries[..n], lot);
      LotOfOne(entries[n], lot);
      LotJoin(entries[..n], [entries[n]], lot);
      assert entries[..n] + [entries[n]] == entries;
      assert forall i :: 0 <= i < n ==> entries[..n][i] == entries[i];
    }
  }

  // ---------------------------------------------------------------------------- due

  predicate Says(v: Json, s: string) {
    IsString(v) && AsString(v) == s
  }

  predicate Flags(f: Entry, id: string) {
    f.body.etype == ReviewFlag && Says(Field(f.body.payload, "subject_event"), id)
  }

  predicate Resolves(r: Entry, flag: string) {
    r.body.etype == ReviewResolution && Says(Field(r.body.payload, "flag_event"), flag)
  }

  ghost predicate LastFlag(entries: seq<Entry>, id: string, k: int) {
    0 <= k < |entries| && Flags(entries[k], id) && forall j :: k < j < |entries| ==> !Flags(entries[j], id)
  }

  /** The last flag of the event is resolved by no event. */
  ghost predicate UnderReview(entries: seq<Entry>, id: string) {
    exists k :: LastFlag(entries, id, k) && forall r :: r in entries ==> !Resolves(r, entries[k].body.id)
  }

  lemma {:induction false} FlagsAreLast(entries: seq<Entry>, id: string)
    ensures id in FlagsOf(entries) <==> exists k :: LastFlag(entries, id, k)
    ensures forall k :: LastFlag(entries, id, k) ==>
              id in FlagsOf(entries) && FlagsOf(entries)[id] == entries[k].body.id
  {
    if entries != [] {
      var n, front := |entries| - 1, entries[..|entries| - 1];
      FlagsAreLast(front, id);
      if Flags(entries[n], id) {
        assert LastFlag(entries, id, n);
      } else {
        forall k ensures LastFlag(entries, id, k) <==> LastFlag(front, id, k) {
          assert forall j :: 0 <= j < n ==> front[j] == entries[j];
        }
      }
    }
  }

  lemma ResolvedIs(entries: seq<Entry>, flag: string)
    ensures Resolved(entries, flag) <==> exists r :: r in entries && Resolves(r, flag)
  {
    if r :| r in entries && Resolves(r, flag) {
      var i :| 0 <= i < |entries| && entries[i] == r;
    }
    if Resolved(entries, flag) {
      var i :| 0 <= i < |entries| && entries[i].body.etype == ReviewResolution
               && Says(Field(entries[i].body.payload, "flag_event"), flag);
      assert entries[i] in entries && Resolves(entries[i], flag);
    }
  }

  lemma OpenIsUnderReview(entries: seq<Entry>, id: string)
    ensures OpenFlag(entries, id) <==> UnderReview(entries, id)
  {
    FlagsAreLast(entries, id);
    if k :| LastFlag(entries, id, k) {
      ResolvedIs(entries, entries[k].body.id);
      forall j | LastFlag(entries, id, j) ensures j == k {}
    }
  }

  /** A stored reward of the rule mentions the event. */
  ghost predicate HasReward(entries: seq<Entry>, basis: string, rule: string) {
    exists r :: r in entries && r.body.etype == RewardIssued && Says(Field(r.body.payload, "reward_rule"), rule)
                && Mentions(Field(r.body.payload, "basis_events"), basis)
  }

  lemma RewardedIs(entries: seq<Entry>, basis: string, rule: string)
    ensures AlreadyRewarded(entries, basis, rule) <==> HasReward(entries, basis, rule)
  {
    if i :| 0 <= i < |entries| && Rewards(entries[i], basis, rule) {
      assert entries[i] in entries;
    }
    if r :| r in entries && r.body.etype == RewardIssued && Says(Field(r.body.payload, "reward_rule"), rule)
            && Mentions(Field(r.body.payload, "basis_events"), basis) {
      var i :| 0 <= i < |entries| && entries[i] == r;
      assert Rewards(entries[i], basis, rule);
    }
  }

  /** The event names its lot, and the lot reconciles without an issue. */
  predicate LotBalances(entries: seq<Entry>, e: Entry) {
    var v := Field(e.body.payload, "residue_id");
    && IsString(v) && AsString(v) != "" && LotTotals(entries, AsString(v)).Some?
    && MassBalance.IssuesOf(LotTotals(entries, AsString(v)).value) == []
  }

  predicate GoodClass(e: Entry) {
    var v := Field(e.body.payload, "quality_class");
    Says(v, "extra_virgin") || Says(v, "organic_extra_virgin")
  }

  predicate Current(e: Entry) {
    e.supersededBy.None? || e.supersededBy == Some("")
  }

  /** A current entry earns a reward: it pays its author what the catalogue says, was not rewarded by that rule,
      is not under review, and meets the condition of its rule. */
  ghost predicate Earns(entries: seq<Entry>, e: Entry, d: Due) {
    && e in entries && Current(e)
    && d.basis == e.body.id && d.recipient == e.body.actor && RewardLaws.Pays(e.body.etype, d.rule, d.amount)
    && !HasReward(entries, d.basis, d.rule) && !UnderReview(entries, d.basis)
    && (d.rule == "soil_return" || d.rule == "verified_recovery" ==> LotBalances(entries, e))
    && (d.rule == "quality_criteria" ==> GoodClass(e))
  }

  predicate NamesUnreadLot(entries: seq<Entry>, e: Entry) {
    var v := Field(e.body.payload, "residue_id");
    IsString(v) && AsString(v) != "" && LotTotals(entries, AsString(v)).None?
  }

  /** The scan raises at an entry whose balance must be read and cannot be. */
  ghost predicate Raises(entries: seq<Entry>, e: Entry) {
    && e in entries && Current(e) && (e.body.etype == ReturnOrSale || e.body.etype == UsefulOutput)
    && !HasReward(entries, e.body.id, if e.body.etype == ReturnOrSale then "soil_return" else "verified_recovery")
    && !UnderReview(entries, e.body.id) && NamesUnreadLot(entries, e)
  }

  lemma RuleIs(t: EventType, id: string, amount: int)
    ensures RewardLaws.Pays(t, id, amount) <==>
              RuleOf(t).Some? && RuleOf(t).value.id == id && RuleOf(t).value.amount == amount
  {
  }

  /** Nothing stands against the rule's reward of the event but the rule's own condition. */
  ghost predicate Open(entries: seq<Entry>, e: Entry, rule: Rule) {
    !HasReward(entries, e.body.id, rule.id) && !UnderReview(entries, e.body.id)
  }

  lemma RuleDueExactly(entries: seq<Entry>, e: Entry, rule: Rule)
    ensures RuleDue(entries, e, rule).None? <==>
              Open(entries, e, rule) && rule.needsBalance && NamesUnreadLot(entries, e)
    ensures RuleDue(entries, e, rule) == Some(true) <==>
              && Open(entries, e, rule) && (rule.needsBalance ==> LotBalances(entries, e))
              && (rule.id == "quality_criteria" ==> GoodClass(e))
  {
    OpenIsUnderReview(entries, e.body.id);
    RewardedIs(entries, e.body.id, rule.id);
  }

  lemma DueOfExactly(entries: seq<Entry>, e: Entry, d: Due)
    requires e in entries
    ensures DueOf(entries, e).None? <==> Raises(entries, e)
    ensures DueOf(entries, e).Some? ==> (d in DueOf(entries, e).value <==> Earns(entries, e, d))
  {
    RuleIs(e.body.etype, d.rule, d.amount);
    if RuleOf(e.body.etype).Some? {
      var rule := RuleOf(e.body.etype).value;
      RewardLaws.CatalogueIs(e.body.etype, rule);
      RuleDueExactly(entries, e, rule);
    }
  }

  /** One answer after the other; none when one raises. */
  function JoinAll(answers: seq<Option<seq<Due>>>): Option<seq<Due>> {
    if answers == [] then Some([]) else Joined(JoinAll(answers[..|answers| - 1]), answers[|answers| - 1])
  }

  ghost predicate Answers(answers: seq<Option<seq<Due>>>, d: Due) {
    exists i :: 0 <= i < |answers| && answers[i].Some? && d in answers[i].value
  }

  lemma {:induction false} JoinAllIs(answers: seq<Option<seq<Due>>>, d: Due)
    ensures JoinAll(answers).None? <==> exists i :: 0 <= i < |answers| && answers[i].None?
    ensures JoinAll(answers).Some? ==> (d in JoinAll(answers).value <==> Answers(answers, d))
  {
    if answers != [] {
      var n := |answers| - 1;
      var front := answers[..n];
      JoinAllIs(front, d);
      assert forall i :: 0 <= i < n ==> front[i] == answers[i];
      assert Answers(answers, d) <==> Answers(front, d) || (answers[n].Some? && d in answers[n].value) by {
        if Answers(front, d) {
          var i :| 0 <= i < n && front[i].Some? && d in front[i].value;
          assert answers[i].Some?;
        }
      }
    }
  }

  lemma {:induction false} DueIsJoined(entries: seq<Entry>, answers: seq<Option<seq<Due>>>, n: nat)
    requires n <= |entries| == |answers| && forall i :: 0 <= i < |entries| ==> answers[i] == DueOf(entries, entries[i])
    ensures DueUpTo(entries, n) == JoinAll(answers[..n])
  {
    if n > 0 {
      assert answers[..n][..n - 1] == answers[..n - 1];
      DueIsJoined(entries, answers, n - 1);
    }
  }

  /** The scan returns exactly the rewards that some entry earns, and raises exactly when some entry makes it. */
  lemma LocalDueExactly(entries: seq<Entry>, d: Due)
    ensures DueRewards(entries).None? <==> exists e :: Raises(entries, e)
    ensures DueRewards(entries).Some? ==> (d in DueRewards(entries).value <==> exists e :: Earns(entries, e, d))
  {
    var answers := seq(|entries|, i requires 0 <= i < |entries| => DueOf(entries, entries[i]));
    DueIsJoined(entries, answers, |entries|);
    assert answers[..|entries|] == answers;
    JoinAllIs(answers, d);
    forall i | 0 <= i < |entries|
      ensures answers[i].None? <==> Raises(entries, entries[i])
      ensures answers[i].Some? ==> (d in answers[i].value <==> Earns(entries, entries[i], d))
    {
      DueOfExactly(entries, entries[i], d);
    }
    if e :| Raises(entries, e) {
      var i :| 0 <= i < |entries| && entries[i] == e;
      assert answers[i].None?;
    }
    if e :| Earns(entries, e, d) {
      var i :| 0 <= i < |entries| && entries[i] == e;
      assert DueRewards(entries).Some? ==> answers[i].Some?;
    }
  }

  // ------------------------------------------------------------------------ balances

  /** Balances add up over a listing. */
  lemma {:induction false} BalanceJoin(a: seq<Entry>, b: seq<Entry>, org: string)
    ensures BalanceOf(a + b, org) == BalanceOf(a, org) + BalanceOf(b, org)
  {
    if b == [] {
      assert a + b == a;
    } else {
      assert (a + b)[..|a + b| - 1] == a + b[..|b| - 1];
      BalanceJoin(a, b[..|b| - 1], org);
    }
  }

  /** A reward that is not superseded holds its amount for its recipient; anything else holds nothing. */
  lemma BalanceOfOne(e: Entry, org: string)
    ensures var p := e.body.payload;
            BalanceOf([e], org) ==
              if e.body.etype == RewardIssued && Current(e) && AsString(Field(p, "recipient")) == org
                then Truncate(AsFloat(Field(p, "amount"))) else 0
  {
    assert [e][..0] == [];
  }

  // ------------------------------------------------------------------------ rounding

  /** The reported recovery is the nearest hundredth, halves to the even neighbour. */
  lemma RoundEvenNearest(x: real)
    ensures -0.5 <= RoundEven(x) as real - x <= 0.5
    ensures RoundEven(x) as real - x == 0.5 || RoundEven(x) as real - x == -0.5 ==> RoundEven(x) % 2 == 0
  {
  }

  lemma RecoveryReported(t: MassBalance.Totals)
    requires t.generated > 0.0
    ensures MassBalance.Recovery(t) * t.generated == 100.0 * t.transformed
    ensures -0.005 <= RecoveryPct(t) - MassBalance.Recovery(t) <= 0.005
  {
    MassBalance.RecoveryMeaning(t);
    RoundEvenNearest(MassBalance.Recovery(t) * 100.0);
  }
}
