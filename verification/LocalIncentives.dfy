/** The service's reward engine over its own ledger: what is due, and issuing it. */
module LocalIncentives {
  import opened Values
  import opened Events
  import opened LocalLedger
  import MassBalance
  import Governance
  import WorkflowMirror

  type Rule = Governance.Rule
  type Due = Governance.Due

  // ------------------------------------------------------------------ mass balance

  /** A value read as a number; None where the conversion raises. */
  function Number(v: Json): Option<real> {
    match v
    case JNumber(n, _) => Some(n)
    case JNumericText(_, n) => Some(n)
    case JBool(b) => Some(if b then 1.0 else 0.0)
    case _ => None
  }

  /** Values that may key a dictionary. */
  predicate Hashable(v: Json) {
    !v.JArray? && !v.JObject?
  }

  predicate OutputsReadable(p: Payload) {
    "outputs" !in p
    || (p["outputs"].JArray?
        && forall i :: 0 <= i < |p["outputs"].items| ==>
             p["outputs"].items[i].JObject? && "output_type" in p["outputs"].items[i].fields
             && Hashable(p["outputs"].items[i].fields["output_type"])
             && Number(Field(p["outputs"].items[i].fields, "quantity")).Some?)
  }

  /** Adds one current event of a lot; None where reading it raises. */
  function AddEntry(t: MassBalance.Totals, e: Entry): Option<MassBalance.Totals> {
    var p := e.body.payload;
    match e.body.etype
    case ResidueGeneration =>
      var w := Number(Field(p, "weight_kg"));
      if w.None? then None else Some(t.(generated := t.generated + w.value))
    case ResidueCustody =>
      var w := Number(Field(p, "weight_kg"));
      if w.None? then None
      else Some(t.(transferred := t.transferred + w.value,
                   accepted := if WorkflowMirror.Truthy(Field(p, "accepted")) then t.accepted + w.value
                       else t.accepted))
    case Valorization =>
      var input := Number(Field(p, "input_kg"));
      var rejected := if "rejected_kg" in p then Number(p["rejected_kg"]) else Some(0.0);
      if input.None? || rejected.None? || !OutputsReadable(p) then None
      else Some(t.(transformed := t.transformed + input.value, rejected := t.rejected + rejected.value))
    case _ => Some(t)
  }

  function LotTotals(entries: seq<Entry>, lot: string): Option<MassBalance.Totals> {
    if entries == [] then Some(MassBalance.ZERO)
    else
      var before, e := LotTotals(entries[..|entries| - 1], lot), entries[|entries| - 1];
      if before.None? || e.body.subject != lot || e.supersededBy.Some? then before else AddEntry(before.value, e)
  }

  /** The parity-preserving rounding of the service: halves go to the even neighbour. */
  function RoundEven(x: real): int {
    var below := x.Floor;
    var rest := x - below as real;
    if rest < 0.5 || (rest == 0.5 && below % 2 == 0) then below else below + 1
  }

  function RecoveryPct(t: MassBalance.Totals): real {
    RoundEven(MassBalance.Recovery(t) * 100.0) as real / 100.0
  }

  datatype Record = Record(totals: MassBalance.Totals, issues: seq<MassBalance.Issue>, recovery: real)

  /** The same totals, issues and bounds as the chaincode's reconciliation. */
  method ReconcileResidue(entries: seq<Entry>, lot: string) returns (r: Option<Record>)
    ensures r.None? <==> LotTotals(entries, lot).None?
    ensures r.Some? ==>
              && LotTotals(entries, lot) == Some(r.value.totals)
              && r.value.issues == MassBalance.IssuesOf(r.value.totals)
              && r.value.recovery == RecoveryPct(r.value.totals)
  {
    var t := MassBalance.ZERO;
    for i := 0 to |entries|
      invariant LotTotals(entries[..i], lot) == Some(t)
    {
      assert entries[..i + 1][..i] == entries[..i];
      var e := entries[i];
      if e.body.subject == lot && e.supersededBy.None? {
        var next := AddEntry(t, e);
        if next.None? {
          FailureStays(entries, i + 1, lot);
          return None;
        }
        t := next.value;
      }
    }
    assert entries[..|entries|] == entries;
    var issues := MassBalance.Check(t);
    r := Some(Record(t, issues, RecoveryPct(t)));
  }

  lemma {:induction false} FailureStays(entries: seq<Entry>, n: nat, lot: string)
    requires n <= |entries| && LotTotals(entries[..n], lot).None?
    ensures LotTotals(entries, lot).None?
  {
    if n < |entries| {
      assert entries[..|entries| - 1][..n] == entries[..n];
      FailureStays(entries[..|entries| - 1], n, lot);
    } else {
      assert entries[..n] == entries;
    }
  }

  /** A current event of the lot. */
  predicate OfLot(e: Entry, lot: string) {
    e.body.subject == lot && e.supersededBy.None?
  }

  predicate NonNegativeCustody(entries: seq<Entry>, lot: string) {
    forall i :: 0 <= i < |entries| && OfLot(entries[i], lot) && entries[i].body.etype == ResidueCustody ==>
      var w := Number(Field(entries[i].body.payload, "weight_kg")); w.Some? ==> w.value >= 0.0
  }

  lemma {:induction false} AcceptedWithinTransferred(entries: seq<Entry>, lot: string)
    requires NonNegativeCustody(entries, lot) && LotTotals(entries, lot).Some?
    ensures 0.0 <= LotTotals(entries, lot).value.accepted <= LotTotals(entries, lot).value.transferred
  {
    if entries != [] {
      var front, e := entries[..|entries| - 1], entries[|entries| - 1];
      assert forall i :: 0 <= i < |front| ==> front[i] == entries[i];
      AcceptedWithinTransferred(front, lot);
    }
  }

  /** A lot that reconciles with a positive accounted mass obeys the same bound as on chain. */
  lemma LocalLotBound(entries: seq<Entry>, lot: string)
    requires LotTotals(entries, lot).Some? && MassBalance.IssuesOf(LotTotals(entries, lot).value) == []
    requires LotTotals(entries, lot).value.transformed + LotTotals(entries, lot).value.rejected > 0.0
    ensures var t := LotTotals(entries, lot).value;
            && t.generated > 0.0
            && 0.95 * 0.95 * 0.95 * t.generated <= t.transformed + t.rejected
            && 0.95 * 0.95 * 0.95 * (t.transformed + t.rejected) <= t.generated
            && (NonNegativeCustody(entries, lot) ==> 0.95 * 0.95 * (t.transformed + t.rejected) <= t.generated)
  {
    var t := LotTotals(entries, lot).value;
    MassBalance.ChainOfChecks(t);
    MassBalance.ChainBounds(t.generated, t.transferred, t.accepted, t.transformed + t.rejected);
    if NonNegativeCustody(entries, lot) {
      AcceptedWithinTransferred(entries, lot);
    }
  }

  /** Hence the same bound on recovery, and on the figure the service reports. */
  lemma LocalRecoveryBound(entries: seq<Entry>, lot: string)
    requires LotTotals(entries, lot).Some? && MassBalance.IssuesOf(LotTotals(entries, lot).value) == []
    requires NonNegativeCustody(entries, lot) && LotTotals(entries, lot).value.rejected >= 0.0
    requires LotTotals(entries, lot).value.transformed + LotTotals(entries, lot).value.rejected > 0.0
    ensures var t := LotTotals(entries, lot).value;
            MassBalance.Recovery(t) <= 100.0 / 0.9025 && RecoveryPct(t) <= 110.8
  {
    var t := LotTotals(entries, lot).value;
    LocalLotBound(entries, lot);
    MassBalance.RatioBound(t.transformed, t.generated);
  }

  // ----------------------------------------------------------------------- what is due

  /** The rule of an event type, if it has one. */
  function RuleOf(t: EventType): Option<Rule> {
    match t
    case ResidueCustody => Some(Governance.RULES[0])
    case LabVerification => Some(Governance.RULES[1])
    case ReturnOrSale => Some(Governance.RULES[2])
    case UsefulOutput => Some(Governance.RULES[3])
    case Milling => Some(Governance.RULES[4])
    case ConsumerVerification => Some(Governance.RULES[5])
    case _ => None
  }

  lemma RuleOfIsTable(t: EventType, r: Rule)
    ensures RuleOf(t) == Some(r) <==> r in Governance.RULES && r.etype == t
  {
  }

  predicate FoundAt(s: string, id: string, i: nat) {
    i + |id| <= |s| && s[i..i + |id|] == id
  }

  /** Membership of an id in a list, a text or an object. */
  predicate Mentions(v: Json, id: string) {
    match v
    case JArray(items, _) => exists i :: 0 <= i < |items| && IsString(items[i]) && AsString(items[i]) == id
    case JText(s) => exists i | 0 <= i <= |s| :: FoundAt(s, id, i)
    case JNumericText(s, _) => exists i | 0 <= i <= |s| :: FoundAt(s, id, i)
    case JObject(fields, _) => id in fields
    case _ => false
  }

  predicate Rewards(e: Entry, basis: string, rule: string) {
    && e.body.etype == RewardIssued
    && IsString(Field(e.body.payload, "reward_rule")) && AsString(Field(e.body.payload, "reward_rule")) == rule
    && Mentions(Field(e.body.payload, "basis_events"), basis)
  }

  predicate AlreadyRewarded(entries: seq<Entry>, basis: string, rule: string) {
    exists i :: 0 <= i < |entries| && Rewards(entries[i], basis, rule)
  }

  /** The last flag of each flagged event. */
  function FlagsOf(entries: seq<Entry>): map<string, string> {
    if entries == [] then map[]
    else
      var e, before := entries[|entries| - 1], FlagsOf(entries[..|entries| - 1]);
      var v := Field(e.body.payload, "subject_event");
      if e.body.etype == ReviewFlag && IsString(v) then before[AsString(v) := e.body.id] else before
  }

  predicate Resolved(entries: seq<Entry>, flag: string) {
    exists i :: 0 <= i < |entries| && entries[i].body.etype == ReviewResolution
                && IsString(Field(entries[i].body.payload, "flag_event"))
                   && AsString(Field(entries[i].body.payload, "flag_event")) == flag
  }

  predicate OpenFlag(entries: seq<Entry>, id: string) {
    var flags := FlagsOf(entries);
    id in flags && !Resolved(entries, flags[id])
  }

  /** Whether a rule's reward for an event is due; None where the check raises. */
  function RuleDue(entries: seq<Entry>, e: Entry, rule: Rule): Option<bool> {
    if AlreadyRewarded(entries, e.body.id, rule.id) || OpenFlag(entries, e.body.id) then Some(false)
    else
      var lot := Field(e.body.payload, "residue_id");
      if rule.needsBalance && (!IsString(lot) || AsString(lot) == "") then Some(false)
      else if rule.needsBalance && LotTotals(entries, AsString(lot)).None? then None
      else if rule.needsBalance && MassBalance.IssuesOf(LotTotals(entries, AsString(lot)).value) != [] then Some(false)
      else if rule.id == "quality_criteria" then
        var q := Field(e.body.payload, "quality_class");
        Some(IsString(q) && AsString(q) in {"extra_virgin", "organic_extra_virgin"})
      else Some(true)
  }

  function DueFor(e: Entry, rule: Rule): Due {
    Governance.Due(e.body.actor, rule.amount, rule.id, e.body.id)
  }

  predicate Skipped(e: Entry) {
    (e.supersededBy.Some? && e.supersededBy.value != "") || RuleOf(e.body.etype).None?
  }

  /** The reward due for one event, if any; None where the check raises. */
  function DueOf(entries: seq<Entry>, e: Entry): Option<seq<Due>> {
    if Skipped(e) then Some([])
    else
      var rule := RuleOf(e.body.etype).value;
      match RuleDue(entries, e, rule)
      case None => None
      case Some(due) => Some(if due then [DueFor(e, rule)] else [])
  }

  function Joined(before: Option<seq<Due>>, one: Option<seq<Due>>): Option<seq<Due>> {
    if before.None? || one.None? then None else Some(before.value + one.value)
  }

  /** The rewards due for the first `n` events, in order. */
  function DueUpTo(entries: seq<Entry>, n: nat): Option<seq<Due>>
    requires n <= |entries|
  {
    if n == 0 then Some([]) else Joined(DueUpTo(entries, n - 1), DueOf(entries, entries[n - 1]))
  }

  function DueRewards(entries: seq<Entry>): Option<seq<Due>> {
    DueUpTo(entries, |entries|)
  }

  // ------------------------------------------------------------------- issuing one

  function RewardPayload(d: Due): Payload {
    map["recipient" := JText(d.recipient), "amount" := JNumber(d.amount as real, ""), "reward_rule" := JText(d.rule),
        "basis_events" := JArray([JText(d.basis)], ""), "transferable" := JBool(false)]
  }

  /** An entry that issues a due reward. */
  predicate Issues(e: Entry, d: Due) {
    e.body.etype == RewardIssued && e.body.payload == RewardPayload(d) && e.supersededBy == None
  }

  lemma IssuedRewards(r: Entry, d: Due, basis: string, rule: string)
    requires Issues(r, d)
    ensures Rewards(r, basis, rule) <==> basis == d.basis && rule == d.rule
  {
    var v := Field(r.body.payload, "basis_events");
    assert v.items[0] == JText(d.basis);
  }

  lemma {:induction false} RewardLeavesTotals(entries: seq<Entry>, r: Entry, lot: string)
    requires r.body.etype == RewardIssued
    ensures LotTotals(entries + [r], lot) == LotTotals(entries, lot)
  {
  }

  lemma RewardLeavesFlags(entries: seq<Entry>, r: Entry, id: string)
    requires r.body.etype == RewardIssued
    ensures OpenFlag(entries + [r], id) == OpenFlag(entries, id)
  {
  }

  lemma RewardedAfter(entries: seq<Entry>, r: Entry, d: Due, basis: string, rule: string)
    requires Issues(r, d)
    ensures AlreadyRewarded(entries + [r], basis, rule) <==>
            AlreadyRewarded(entries, basis, rule) || (basis == d.basis && rule == d.rule)
  {
    var all := entries + [r];
    IssuedRewards(r, d, basis, rule);
    assert all[|entries|] == r;
    if i :| 0 <= i < |entries| && Rewards(entries[i], basis, rule) { assert Rewards(all[i], basis, rule); }
  }

  /** Issuing a reward settles exactly the pair it names. */
  lemma RuleDueAfter(entries: seq<Entry>, r: Entry, d: Due, e: Entry, rule: Rule)
    requires Issues(r, d)
    ensures RuleDue(entries + [r], e, rule) == if e.body.id == d.basis && rule.id == d.rule then Some(false)
            else RuleDue(entries, e, rule)
  {
    RewardedAfter(entries, r, d, e.body.id, rule.id);
    RewardLeavesFlags(entries, r, e.body.id);
    RewardLeavesTotals(entries, r, AsString(Field(e.body.payload, "residue_id")));
  }

  function Without(due: seq<Due>, d: Due): seq<Due> {
    if due == [] then []
    else
      var last := due[|due| - 1];
      Without(due[..|due| - 1], d) + if last.basis == d.basis && last.rule == d.rule then [] else [last]
  }

  lemma WithoutJoined(before: seq<Due>, one: seq<Due>, d: Due)
    requires |one| <= 1
    ensures Without(before + one, d) == Without(before, d) + Without(one, d)
  {
    if one == [] {
      assert before + one == before;
    } else {
      assert (before + one)[..|before|] == before && one[..0] == [];
    }
  }

  lemma DueOfAfter(entries: seq<Entry>, r: Entry, d: Due, e: Entry)
    requires Issues(r, d) && DueOf(entries, e).Some?
    ensures DueOf(entries + [r], e) == Some(Without(DueOf(entries, e).value, d))
  {
    if !Skipped(e) {
      var rule := RuleOf(e.body.etype).value;
      RuleDueAfter(entries, r, d, e, rule);
      var one := [DueFor(e, rule)];
      assert one[..0] == [] && (one[0].basis, one[0].rule) == (e.body.id, rule.id);
      assert Without(one, d) == if e.body.id == d.basis && rule.id == d.rule then [] else one;
    }
  }

  lemma {:induction false} DueAfter(entries: seq<Entry>, r: Entry, d: Due, n: nat)
    requires Issues(r, d) && n <= |entries| && DueUpTo(entries, n).Some?
    ensures DueUpTo(entries + [r], n) == Some(Without(DueUpTo(entries, n).value, d))
  {
    if n > 0 {
      var e := entries[n - 1];
      DueAfter(entries, r, d, n - 1);
      DueOfAfter(entries, r, d, e);
      WithoutJoined(DueUpTo(entries, n - 1).value, DueOf(entries, e).value, d);
      assert (entries + [r])[n - 1] == e;
    }
  }

  lemma {:induction false} DueBases(entries: seq<Entry>, n: nat)
    requires n <= |entries| && DueUpTo(entries, n).Some?
    ensures forall d :: d in DueUpTo(entries, n).value ==>
              !AlreadyRewarded(entries, d.basis, d.rule) && exists i :: 0 <= i < n && entries[i].body.id == d.basis
  {
    if n > 0 {
      DueBases(entries, n - 1);
      var e := entries[n - 1];
      forall d | d in DueUpTo(entries, n).value
        ensures !AlreadyRewarded(entries, d.basis, d.rule) && exists i :: 0 <= i < n && entries[i].body.id == d.basis
      {
        if d in DueUpTo(entries, n - 1).value {
          var i :| 0 <= i < n - 1 && entries[i].body.id == d.basis;
        } else {
          assert entries[n - 1].body.id == d.basis;
        }
      }
    }
  }

  /** With distinct event ids, no basis is due twice. */
  lemma {:induction false} DueDistinct(entries: seq<Entry>, n: nat)
    requires n <= |entries| && DueUpTo(entries, n).Some? && DistinctIds(entries)
    ensures var due := DueUpTo(entries, n).value; forall i, j :: 0 <= i < j < |due| ==> due[i].basis != due[j].basis
  {
    if n > 0 {
      DueDistinct(entries, n - 1);
      DueBases(entries, n - 1);
      var before, due := DueUpTo(entries, n - 1).value, DueUpTo(entries, n).value;
      if due != before {
        forall i | 0 <= i < |before| ensures before[i].basis != entries[n - 1].body.id {
          assert before[i] in before;
          var k :| 0 <= k < n - 1 && entries[k].body.id == before[i].basis;
        }
      }
    }
  }

  lemma {:induction false} WithoutFirst(due: seq<Due>)
    requires due != [] && forall i, j :: 0 <= i < j < |due| ==> due[i].basis != due[j].basis
    ensures Without(due, due[0]) == due[1..]
  {
    var n := |due| - 1;
    if n == 0 {
      assert due[..0] == [];
    } else {
      WithoutFirst(due[..n]);
      assert due[..n][0] == due[0] && due[..n][1..] + [due[n]] == due[1..];
    }
  }

  lemma FirstRemoved(entries: seq<Entry>, due: seq<Due>)
    requires DistinctIds(entries) && DueRewards(entries) == Some(due) && due != []
    ensures Without(due, due[0]) == due[1..]
  {
    DueDistinct(entries, |entries|);
    WithoutFirst(due);
  }

  lemma JoinedNothing(before: Option<seq<Due>>)
    ensures Joined(before, Some([])) == before
  {
    if before.Some? {
      assert before.value + [] == before.value;
    }
  }

  lemma RewardNotDue(all: seq<Entry>, r: Entry)
    requires r.body.etype == RewardIssued
    ensures DueOf(all, r) == Some([])
  {
  }

  lemma RewardAddsNothing(all: seq<Entry>, n: nat)
    requires |all| == n + 1 && all[n].body.etype == RewardIssued
    ensures DueRewards(all) == DueUpTo(all, n)
  {
    RewardNotDue(all, all[n]);
    JoinedNothing(DueUpTo(all, n));
  }

  /** Issuing the first due reward leaves exactly the others due. */
  lemma IssueFirst(entries: seq<Entry>, r: Entry, due: seq<Due>)
    requires DistinctIds(entries) && DueRewards(entries) == Some(due) && due != [] && Issues(r, due[0])
    ensures DueRewards(entries + [r]) == Some(due[1..])
  {
    RewardAddsNothing(entries + [r], |entries|);
    DueAfter(entries, r, due[0], |entries|);
    FirstRemoved(entries, due);
  }

  // --------------------------------------------------------------- at most once, balances

  /** No pair of basis event and rule is rewarded by two entries. */
  ghost predicate RewardedOnce(entries: seq<Entry>) {
    forall i, j, basis, rule :: 0 <= i < j < |entries| && Rewards(entries[i], basis, rule) ==>
        !Rewards(entries[j], basis, rule)
  }

  lemma IssueKeepsOnce(entries: seq<Entry>, r: Entry, d: Due)
    requires RewardedOnce(entries) && Issues(r, d) && !AlreadyRewarded(entries, d.basis, d.rule)
    ensures RewardedOnce(entries + [r])
  {
  }

  /** Any other event, and any pointer it sets, leaves the rewards alone. */
  lemma OtherKeepsOnce(entries: seq<Entry>, e: Entry)
    requires RewardedOnce(entries) && e.body.etype != RewardIssued
    ensures RewardedOnce(Applied(entries, e) + [e])
  {
  }

  /** A reward that no correction has superseded. */
  predicate Counts(e: Entry) {
    e.body.etype == RewardIssued && !(e.supersededBy.Some? && e.supersededBy.value != "")
  }

  function Recipient(e: Entry): string {
    AsString(Field(e.body.payload, "recipient"))
  }

  function Points(e: Entry): int {
    Truncate(AsFloat(Field(e.body.payload, "amount")))
  }

  /** The points an organisation holds. */
  function BalanceOf(entries: seq<Entry>, org: string): int {
    if entries == [] then 0
    else
      var e := entries[|entries| - 1];
      BalanceOf(entries[..|entries| - 1], org) + if Counts(e) && Recipient(e) == org then Points(e) else 0
  }

  function PointsTo(d: Due, org: string): int {
    if d.recipient == org then d.amount else 0
  }

  /** What a list of due rewards pays an organisation. */
  function PaidTo(due: seq<Due>, org: string): int {
    if due == [] then 0 else PointsTo(due[0], org) + PaidTo(due[1..], org)
  }

  lemma IssuedPoints(entries: seq<Entry>, r: Entry, d: Due, org: string)
    requires Issues(r, d)
    ensures BalanceOf(entries + [r], org) == BalanceOf(entries, org) + PointsTo(d, org)
  {
  }

  /** One issuing entry for each due reward, in order. */
  ghost predicate AllIssued(rewards: seq<Entry>, due: seq<Due>) {
    |rewards| == |due| && forall k :: 0 <= k < |due| ==> Issues(rewards[k], due[k])
  }

  /** Issuing everything that is due leaves nothing due, pays every organisation exactly what was due to
      it, and rewards no pair a second time. */
  lemma {:induction false} IssuingSettles(entries: seq<Entry>, rewards: seq<Entry>, due: seq<Due>)
    requires DistinctIds(entries + rewards) && DueRewards(entries) == Some(due) && AllIssued(rewards, due)
    ensures DueRewards(entries + rewards) == Some([])
    ensures forall org :: BalanceOf(entries + rewards, org) == BalanceOf(entries, org) + PaidTo(due, org)
    ensures RewardedOnce(entries) ==> RewardedOnce(entries + rewards)
    decreases |due|
  {
    if due == [] {
      assert entries + rewards == entries;
    } else {
      var r, next := rewards[0], entries + [rewards[0]];
      assert entries + rewards == next + rewards[1..];
      FrontDistinct(entries, rewards);
      IssuingOneSettles(entries, r, due);
      IssuingSettles(next, rewards[1..], due[1..]);
    }
  }

  lemma IssuingOneSettles(entries: seq<Entry>, r: Entry, due: seq<Due>)
    requires DistinctIds(entries) && DueRewards(entries) == Some(due) && due != [] && Issues(r, due[0])
    ensures DueRewards(entries + [r]) == Some(due[1..])
    ensures forall org :: BalanceOf(entries + [r], org) == BalanceOf(entries, org) + PointsTo(due[0], org)
    ensures RewardedOnce(entries) ==> RewardedOnce(entries + [r])
  {
    IssueFirst(entries, r, due);
    forall org ensures BalanceOf(entries + [r], org) == BalanceOf(entries, org) + PointsTo(due[0], org) {
      IssuedPoints(entries, r, due[0], org);
    }
    if RewardedOnce(entries) {
      DueBases(entries, |entries|);
      assert due[0] in due;
      IssueKeepsOnce(entries, r, due[0]);
    }
  }

  lemma FrontDistinct(front: seq<Entry>, back: seq<Entry>)
    requires DistinctIds(front + back)
    ensures DistinctIds(front)
  {
    forall i, j | 0 <= i < j < |front| ensures front[i].body.id != front[j].body.id {
      assert (front + back)[i].body.id != (front + back)[j].body.id;
    }
  }

  /** Pairwise distinct ids that the ledger does not hold. */
  ghost predicate Fresh(entries: seq<Entry>, ids: seq<string>) {
    && (forall i, j :: 0 <= i < j < |ids| ==> ids[i] != ids[j])
    && (forall i :: 0 <= i < |ids| ==> !Knows(entries, ids[i]))
  }

  lemma FreshStays(entries: seq<Entry>, next: seq<Entry>, ids: seq<string>)
    requires ids != [] && Fresh(entries, ids) && forall x :: Knows(next, x) <==> Knows(entries, x) || x == ids[0]
    ensures Fresh(next, ids[1..])
  {
  }

  lemma AllIssuedNext(rewards: seq<Entry>, due: seq<Due>, k: nat, r: Entry)
    requires k < |due| && AllIssued(rewards, due[..k]) && Issues(r, due[k])
    ensures AllIssued(rewards + [r], due[..k + 1])
  {
  }

  /** The ledger grows by events other than rewards, under fresh ids, and by engine runs. */
  datatype Growth = Other(e: Entry) | EngineRun(rewards: seq<Entry>)

  function Grown(entries: seq<Entry>, g: Growth): seq<Entry> {
    match g
    case Other(e) => Applied(entries, e) + [e]
    case EngineRun(rewards) => entries + rewards
  }

  ghost predicate MayGrow(entries: seq<Entry>, g: Growth) {
    match g
    case Other(e) => e.body.etype != RewardIssued && !Knows(entries, e.body.id)
    case EngineRun(rewards) =>
      DistinctIds(entries + rewards) && DueRewards(entries).Some? && AllIssued(rewards, DueRewards(entries).value)
  }

  function Grow(steps: seq<Growth>): seq<Entry> {
    if steps == [] then [] else Grown(Grow(steps[..|steps| - 1]), steps[|steps| - 1])
  }

  ghost predicate MayGrowAll(steps: seq<Growth>) {
    steps != [] ==> MayGrowAll(steps[..|steps| - 1]) && MayGrow(Grow(steps[..|steps| - 1]), steps[|steps| - 1])
  }

  /** However engine runs and other events interleave, no pair of event and rule is rewarded twice. */
  lemma {:induction false} InterleavedOnce(steps: seq<Growth>)
    requires MayGrowAll(steps)
    ensures RewardedOnce(Grow(steps)) && DistinctIds(Grow(steps))
  {
    if steps != [] {
      var before := Grow(steps[..|steps| - 1]);
      InterleavedOnce(steps[..|steps| - 1]);
      match steps[|steps| - 1] {
        case Other(e) =>
          OtherKeepsOnce(before, e);
          RecordedIndexed(before, e);
        case EngineRun(rewards) => IssuingSettles(before, rewards, DueRewards(before).value);
      }
    }
  }

  // -------------------------------------------------------------------------- the engine

  /** Issues rewards in the name of an authority that signs with its registered key. */
  class IncentiveEngine {
    const ledger: Ledger
    const authority: string
    const sign: Body -> string

    /** The authority is registered as one and its signatures verify. */
    ghost predicate Ready() {
      && authority in ledger.registry && Authority in ledger.registry[authority].roles
      && forall b :: ledger.crypto.verify(ledger.registry[authority].key, ledger.crypto.encode(b), sign(b))
    }

    constructor (ledger: Ledger, authority: string, sign: Body -> string)
      ensures this.ledger == ledger && this.authority == authority && this.sign == sign
    {
      this.ledger, this.authority, this.sign := ledger, authority, sign;
    }

    /** Rewards due, computed without issuing them. */
    method Scan() returns (due: Option<seq<Due>>)
      ensures due == DueRewards(ledger.entries)
    {
      var entries := ledger.entries;
      var found: seq<Due> := [];
      for i := 0 to |entries|
        invariant DueUpTo(entries, i) == Some(found)
      {
        var one := CheckEvent(entries, entries[i]);
        if one.None? {
          ScanFails(entries, i + 1);
          return None;
        }
        found := found + one.value;
      }
      due := Some(found);
    }

    /** The checks on one event; None where reading it raises. */
    method CheckEvent(entries: seq<Entry>, e: Entry) returns (one: Option<seq<Due>>)
      ensures one == DueOf(entries, e)
    {
      if (e.supersededBy.Some? && e.supersededBy.value != "") || RuleOf(e.body.etype).None? {
        return Some([]);
      }
      var rule := RuleOf(e.body.etype).value;
      if AlreadyRewarded(entries, e.body.id, rule.id) || OpenFlag(entries, e.body.id) {
        return Some([]);
      }
      if rule.needsBalance {
        var lot := Field(e.body.payload, "residue_id");
        if !IsString(lot) || AsString(lot) == "" {
          return Some([]);
        }
        var rec := ReconcileResidue(entries, AsString(lot));
        if rec.None? {
          return None;
        }
        if rec.value.issues != [] {
          return Some([]);
        }
      }
      if rule.id == "quality_criteria" {
        var q := Field(e.body.payload, "quality_class");
        if !IsString(q) || AsString(q) !in {"extra_virgin", "organic_extra_virgin"} {
          return Some([]);
        }
      }
      return Some([DueFor(e, rule)]);
    }

    /** Balances by organisation. */
    method Balances() returns (balances: map<string, int>)
      ensures forall org :: (if org in balances then balances[org] else 0) == BalanceOf(ledger.entries, org)
    {
      var entries := ledger.entries;
      balances := map[];
      for i := 0 to |entries|
        invariant forall org :: (if org in balances then balances[org] else 0) == BalanceOf(entries[..i], org)
      {
        assert entries[..i + 1][..i] == entries[..i];
        var e := entries[i];
        if Counts(e) {
          var held := if Recipient(e) in balances then balances[Recipient(e)] else 0;
          balances := balances[Recipient(e) := held + Points(e)];
        }
      }
      assert entries[..|entries|] == entries;
    }

    /** Issues every due reward; `ids` are the fresh ids the new events get. */
    method Run(ids: seq<string>, now: real) returns (issued: Option<seq<Due>>)
      requires ledger.Valid() && Ready()
      requires Fresh(ledger.entries, ids)
      requires DueRewards(ledger.entries).Some? ==> |DueRewards(ledger.entries).value| <= |ids|
      modifies ledger
      ensures ledger.Valid()
      ensures issued == DueRewards(old(ledger.entries))
      ensures issued.None? ==> ledger.entries == old(ledger.entries)
      ensures issued.Some? ==>
              exists rewards :: AllIssued(rewards, issued.value) && ledger.entries == old(ledger.entries) + rewards
      ensures issued.Some? ==>
                && DueRewards(ledger.entries) == Some([])
                && (forall org ::
                      BalanceOf(ledger.entries, org) == BalanceOf(old(ledger.entries), org) + PaidTo(issued.value, org))
                && (RewardedOnce(old(ledger.entries)) ==> RewardedOnce(ledger.entries))
    {
      issued := Scan();
      if issued.Some? {
        ghost var before := ledger.entries;
        ghost var rewards := IssueAll(issued.value, ids, now);
        IssuingSettles(before, rewards, issued.value);
      }
    }

    method IssueAll(due: seq<Due>, ids: seq<string>, now: real) returns (ghost rewards: seq<Entry>)
      requires ledger.Valid() && Ready() && |due| <= |ids|
      requires Fresh(ledger.entries, ids)
      modifies ledger
      ensures ledger.Valid() && AllIssued(rewards, due) && ledger.entries == old(ledger.entries) + rewards
    {
      rewards := [];
      for k := 0 to |due|
        invariant ledger.Valid() && ledger.entries == old(ledger.entries) + rewards
        invariant Fresh(ledger.entries, ids[k..])
        invariant AllIssued(rewards, due[..k])
      {
        assert ids[k..][0] == ids[k] && ids[k..][1..] == ids[k + 1..];
        ghost var entries := ledger.entries;
        ghost var r := IssueOne(due[k], ids[k], now);
        FreshStays(entries, ledger.entries, ids[k..]);
        AllIssuedNext(rewards, due, k, r);
        assert ledger.entries == old(ledger.entries) + (rewards + [r]);
        rewards := rewards + [r];
      }
      assert due[..|due|] == due;
    }

    /** Issues one reward as one more event. */
    method IssueOne(d: Due, id: string, now: real) returns (ghost r: Entry)
      requires ledger.Valid() && Ready() && !Knows(ledger.entries, id)
      modifies ledger
      ensures ledger.Valid() && Issues(r, d) && ledger.entries == old(ledger.entries) + [r]
      ensures forall x :: Knows(ledger.entries, x) <==> Knows(old(ledger.entries), x) || x == id
    {
      ghost var entries := ledger.entries;
      var head := ledger.HeadOfChain();
      var body := Body(id, RewardIssued, d.recipient, authority, now, RewardPayload(d), [], head);
      RewardMayBeWritten(ledger.registry, body, d);
      var ok := ledger.AppendEvent(body, sign(body));
      r := NewEntry(ledger.crypto, body, sign(body));
      assert body.(prevHash := head) == body;
      assert ok;
      assert ledger.entries == entries + [r];
      RecordedIndexed(entries, r);
    }
  }

  lemma RewardMayBeWritten(reg: LocalLedger.Registry, body: Body, d: Due)
    requires body.actor in reg && Authority in reg[body.actor].roles && body.etype == RewardIssued
    requires body.payload == RewardPayload(d)
    ensures MayWrite(reg, body)
  {
    assert Authority in reg[body.actor].roles * Permitted(RewardIssued);
  }

  lemma {:induction false} ScanFails(entries: seq<Entry>, n: nat)
    requires n <= |entries| && DueUpTo(entries, n).None?
    ensures DueRewards(entries).None?
    decreases |entries| - n
  {
    if n < |entries| {
      ScanFails(entries, n + 1);
    }
  }
}
