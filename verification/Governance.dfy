/** Consortium proposals and the reward rules that gate one kind of them. */
module Governance {
  import opened Values
  import opened Events
  import opened EventStore
  import opened MassBalance

  // -------------------------------------------------------------------- proposals

  datatype Approval = Approval(msp: Msp, client: string)

  /** `finalEvent` is the event a finalized proposal was written as. */
  datatype Proposal = Proposal(
    etype: EventType, subject: string, payload: Payload, proposedBy: Msp,
    approvals: seq<Approval>, finalEvent: Option<string>)

  type Proposals = map<string, Proposal>

  const THRESHOLD := 3

  function MspRank(m: Msp): int {
    match m
    case CourierMsp => 0
    case FarmerMsp => 1
    case MakerMsp => 2
    case RecyclerMsp => 3
    case _ => 4
  }

  /** Approvals are kept in the order of MSP names. */
  function InsertApproval(s: seq<Approval>, a: Approval): seq<Approval> {
    if s == [] then [a]
    else if MspRank(a.msp) < MspRank(s[0].msp) then [a] + s
    else [s[0]] + InsertApproval(s[1..], a)
  }

  lemma {:induction false} InsertApprovalAdds(s: seq<Approval>, a: Approval)
    ensures forall x :: x in InsertApproval(s, a) <==> x in s || x == a
    ensures |InsertApproval(s, a)| == |s| + 1
  {
    if s != [] && MspRank(a.msp) >= MspRank(s[0].msp) {
      InsertApprovalAdds(s[1..], a);
      assert s == [s[0]] + s[1..];
    }
  }

  lemma {:induction false} InsertApprovalDistinct(s: seq<Approval>, a: Approval)
    requires DistinctMsps(s) && forall x :: x in s ==> x.msp != a.msp
    ensures DistinctMsps(InsertApproval(s, a))
  {
    if s != [] && MspRank(a.msp) >= MspRank(s[0].msp) {
      var tail := InsertApproval(s[1..], a);
      InsertApprovalAdds(s[1..], a);
      InsertApprovalDistinct(s[1..], a);
      forall x | x in tail ensures x.msp != s[0].msp {
        if x in s[1..] {
          var i :| 0 <= i < |s[1..]| && s[1..][i] == x;
          assert s[i + 1] == x;
        }
      }
    }
  }

  ghost predicate DistinctMsps(s: seq<Approval>) {
    forall i, j :: 0 <= i < j < |s| ==> s[i].msp != s[j].msp
  }

  function Approvers(s: seq<Approval>): set<Msp> {
    set a | a in s && BusinessMsp(a.msp) :: a.msp
  }

  function Propose(ps: Proposals, caller: Identity, id: string, t: EventType, subject: string,
                   payload: Payload): Option<Proposals> {
    if caller.role != OrgAdmin || !Governed(t) || id == "" || id in ps || !PayloadAccepted(t, payload) then None
    else Some(ps[id := Proposal(t, subject, payload, caller.msp, [Approval(caller.msp, caller.clientHash)], None)])
  }

  function Approve(ps: Proposals, caller: Identity, id: string): Option<Proposals> {
    if caller.role != OrgAdmin || id !in ps || ps[id].finalEvent.Some? then None
    else if exists a :: a in ps[id].approvals && a.msp == caller.msp then Some(ps)
    else Some(ps[id := ps[id].(approvals := InsertApproval(ps[id].approvals, Approval(caller.msp, caller.clientHash)))])
  }

  // ---------------------------------------------------------------------- rewards

  datatype Rule = Rule(id: string, etype: EventType, amount: int, needsBalance: bool)

  const RULES := [
    Rule("residue_delivery", ResidueCustody, 10, false),
    Rule("quality_criteria", LabVerification, 15, false),
    Rule("soil_return", ReturnOrSale, 20, true),
    Rule("verified_recovery", UsefulOutput, 25, true),
    Rule("prompt_records", Milling, 5, false),
    Rule("circular_participation", ConsumerVerification, 1, false)]

  /** An event type has at most one rule, and no rule pays more than 25 points. */
  lemma RulesByType(r: Rule, q: Rule)
    requires r in RULES && q in RULES
    ensures r.etype == q.etype ==> r == q
    ensures r.id == q.id ==> r == q
    ensures 0 < r.amount <= 25
  {
  }

  datatype Due = Due(recipient: string, amount: int, rule: string, basis: string)

  /** Due rewards are returned by recipient, then by rule. */
  predicate DueLess(x: Due, y: Due) {
    if x.recipient == y.recipient then LexLess(x.rule, y.rule) else LexLess(x.recipient, y.recipient)
  }

  lemma DueLessIsOrder(x: Due, y: Due, z: Due)
    ensures !(DueLess(x, y) && DueLess(y, x))
    ensures DueLess(x, y) && DueLess(y, z) ==> DueLess(x, z)
  {
    LexAsymmetric(x.recipient, y.recipient);
    LexAsymmetric(x.rule, y.rule);
    if LexLess(x.recipient, y.recipient) && LexLess(y.recipient, z.recipient) {
      LexTransitive(x.recipient, y.recipient, z.recipient);
      LexAsymmetric(y.recipient, z.recipient);
    }
    if LexLess(x.rule, y.rule) && LexLess(y.rule, z.rule) {
      LexTransitive(x.rule, y.rule, z.rule);
    }
  }

  ghost predicate DueSorted(s: seq<Due>) {
    forall i, j :: 0 <= i < j < |s| ==> !DueLess(s[j], s[i])
  }

  ghost predicate BasesDiffer(s: seq<Due>) {
    forall i, j :: 0 <= i < j < |s| ==> s[i].basis != s[j].basis
  }

  function InsertDue(s: seq<Due>, d: Due): seq<Due> {
    if s == [] then [d] else if DueLess(d, s[0]) then [d] + s else [s[0]] + InsertDue(s[1..], d)
  }

  lemma {:induction false} InsertDueAdds(s: seq<Due>, d: Due)
    ensures forall x :: x in InsertDue(s, d) <==> x in s || x == d
  {
    if s != [] && !DueLess(d, s[0]) {
      InsertDueAdds(s[1..], d);
      assert s == [s[0]] + s[1..];
    }
  }

  lemma {:induction false} InsertDueSorts(s: seq<Due>, d: Due)
    requires DueSorted(s)
    ensures DueSorted(InsertDue(s, d))
  {
    if s == [] {
    } else if DueLess(d, s[0]) {
      forall x | x in s ensures !DueLess(x, d) {
        var k :| 0 <= k < |s| && s[k] == x;
        DueLessIsOrder(x, d, s[0]);
        DueLessIsOrder(d, s[0], d);
      }
    } else {
      var tail := InsertDue(s[1..], d);
      InsertDueSorts(s[1..], d);
      InsertDueAdds(s[1..], d);
      forall x | x in tail ensures !DueLess(x, s[0]) {
        if x in s[1..] {
          var k :| 0 <= k < |s[1..]| && s[1..][k] == x;
          assert s[k + 1] == x;
        }
      }
    }
  }

  lemma {:induction false} InsertDueDiffer(s: seq<Due>, d: Due)
    requires BasesDiffer(s) && forall x :: x in s ==> x.basis != d.basis
    ensures BasesDiffer(InsertDue(s, d))
  {
    if s != [] && !DueLess(d, s[0]) {
      var tail := InsertDue(s[1..], d);
      InsertDueDiffer(s[1..], d);
      InsertDueAdds(s[1..], d);
      forall x | x in tail ensures x.basis != s[0].basis {
        if x in s[1..] {
          var k :| 0 <= k < |s[1..]| && s[1..][k] == x;
          assert s[k + 1] == x;
        }
      }
    }
  }

  /** No two rules have the same event type. */
  lemma RulesApart(q: nat, r: nat)
    requires q < r < |RULES|
    ensures RULES[q].etype != RULES[r].etype
  {
  }

  function RewardRule(e: Event): string { AsString(Field(e.payload, "reward_rule")) }
  function RewardBasis(e: Event): seq<string> { AsStrings(Field(e.payload, "basis_events")) }
  function RewardRecipient(p: Payload): string { AsString(Field(p, "recipient")) }
  function RewardAmount(p: Payload): int { Truncate(AsFloat(Field(p, "amount"))) }

  predicate Rewarded(events: seq<Event>, basis: string, rule: string) {
    exists i :: 0 <= i < |events| && events[i].etype == RewardIssued && RewardRule(events[i]) == rule
        && basis in RewardBasis(events[i])
  }

  /** The last flag of each flagged event. */
  function FlagsOf(events: seq<Event>): map<string, string> {
    if events == [] then map[]
    else
      var e := events[|events| - 1];
      var before := FlagsOf(events[..|events| - 1]);
      if e.etype == ReviewFlag then before[AsString(Field(e.payload, "subject_event")) := e.id] else before
  }

  function ResolvedOf(events: seq<Event>): set<string> {
    set i | 0 <= i < |events| && events[i].etype == ReviewResolution :: AsString(Field(events[i].payload, "flag_event"))
  }

  function OpenFlags(events: seq<Event>): set<string> {
    var flags := FlagsOf(events);
    set x | x in flags && flags[x] !in ResolvedOf(events)
  }

  ghost predicate IsDue(s: Store, events: seq<Event>, e: Event, rule: Rule) {
    && rule.etype == e.etype
    && !Rewarded(events, e.id, rule.id)
    && e.id !in OpenFlags(events)
    && (rule.needsBalance ==>
          var lot := AsString(Field(e.payload, "residue_id"));
          lot != "" && Balanced(Listed(s, OfSubject(lot), false)))
    && (rule.id == "quality_criteria" ==>
          AsString(Field(e.payload, "quality_class")) in {"extra_virgin", "organic_extra_virgin"})
  }

  function DueFor(e: Event, rule: Rule): Due {
    Due(e.actorOrg, rule.amount, rule.id, e.id)
  }

  ghost predicate DueOn(s: Store, events: seq<Event>, e: Event, d: Due) {
    exists rule :: rule in RULES && IsDue(s, events, e, rule) && d == DueFor(e, rule)
  }

  /** The rewards that are due in a store. */
  ghost predicate DueIn(s: Store, d: Due) {
    exists e :: e in Listed(s, All, false) && DueOn(s, Listed(s, All, false), e, d)
  }

  function Claim(p: Payload, basis: string): Due {
    Due(RewardRecipient(p), RewardAmount(p), AsString(Field(p, "reward_rule")), basis)
  }

  /** A reward payload names exactly one basis event and claims a reward that is due. */
  ghost predicate RewardAllowed(s: Store, p: Payload) {
    var basis := AsStrings(Field(p, "basis_events"));
    |basis| == 1 && DueIn(s, Claim(p, basis[0]))
  }

  // ------------------------------------------------------------------- invariants

  ghost predicate ApprovalsMatch(p: Proposal) {
    && Governed(p.etype) && DistinctMsps(p.approvals)
    && (forall a :: a in p.approvals ==> BusinessMsp(a.msp))
    && (p.finalEvent.Some? ==> |p.approvals| >= THRESHOLD)
  }

  /** Finalized proposals and governed events are in one-to-one correspondence. */
  ghost predicate ProposalsMatch(ps: Proposals, s: Store) {
    && (forall p :: p in ps ==> ApprovalsMatch(ps[p]))
    && (forall p :: p in ps && ps[p].finalEvent.Some? ==>
          && ps[p].finalEvent.value in s.events
          && var e := s.events[ps[p].finalEvent.value];
             e.etype == ps[p].etype && e.subject == ps[p].subject && e.payload == ps[p].payload)
    && (forall p, q :: p in ps && q in ps && ps[p].finalEvent.Some? && ps[p].finalEvent == ps[q].finalEvent ==> p == q)
    && (forall id :: id in s.events && Governed(s.events[id].etype) ==>
        exists p :: p in ps && ps[p].finalEvent == Some(id))
  }

  /** Governed events are signed by the consortium and never superseded. */
  ghost predicate GovernedFinal(s: Store) {
    forall id :: id in s.events && Governed(s.events[id].etype) ==>
        s.events[id].actorMsp == ConsortiumMsp && id !in s.supersede
  }

  /** A reward pays the actor of its one basis event exactly what the rule of that event gives. */
  ghost predicate PaysBasis(s: Store, r: Event, rule: Rule) {
    && rule in RULES && |RewardBasis(r)| == 1 && RewardBasis(r)[0] in s.events
    && var b := s.events[RewardBasis(r)[0]];
       rule.id == RewardRule(r) && rule.etype == b.etype && rule.amount == RewardAmount(r.payload)
           && b.actorOrg == RewardRecipient(r.payload)
  }

  ghost predicate RewardsMatch(s: Store) {
    && (forall id :: id in s.events && s.events[id].etype == RewardIssued ==>
        exists rule :: PaysBasis(s, s.events[id], rule))
    && (forall id, jd :: id in s.events && jd in s.events && SameReward(s.events[id], s.events[jd]) ==> id == jd)
  }

  ghost predicate SameReward(r: Event, q: Event) {
    && r.etype == RewardIssued && q.etype == RewardIssued
    && RewardRule(r) == RewardRule(q) && RewardBasis(r) == RewardBasis(q)
  }

  ghost predicate ProposalsKept(ps: Proposals, next: Proposals) {
    && (forall p :: p in ps ==> p in next)
    && (forall p :: p in ps ==>
          next[p].payload == ps[p].payload && next[p].etype == ps[p].etype && next[p].subject == ps[p].subject)
    && (forall p :: p in ps && ps[p].finalEvent.Some? ==> next[p] == ps[p])
  }

  lemma ApproveKeeps(ps: Proposals, s: Store, caller: Identity, id: string)
    requires ProposalsMatch(ps, s) && BusinessMsp(caller.msp) && Approve(ps, caller, id).Some?
    ensures ProposalsMatch(Approve(ps, caller, id).value, s)
  {
    var a := Approval(caller.msp, caller.clientHash);
    InsertApprovalAdds(ps[id].approvals, a);
    if forall x :: x in ps[id].approvals ==> x.msp != a.msp { InsertApprovalDistinct(ps[id].approvals, a); }
    var next := Approve(ps, caller, id).value;
    forall e | e in s.events && Governed(s.events[e].etype)
      ensures exists p :: p in next && next[p].finalEvent == Some(e) {
      var p :| p in ps && ps[p].finalEvent == Some(e);
      assert next[p].finalEvent == Some(e);
    }
  }

  lemma NewProposalKeeps(ps: Proposals, s: Store, id: string, p: Proposal)
    requires ProposalsMatch(ps, s) && id !in ps && p.finalEvent.None? && ApprovalsMatch(p)
    ensures ProposalsMatch(ps[id := p], s)
  {
    var next := ps[id := p];
    forall e | e in s.events && Governed(s.events[e].etype)
      ensures exists q :: q in next && next[q].finalEvent == Some(e) {
      var q :| q in ps && ps[q].finalEvent == Some(e);
      assert next[q].finalEvent == Some(e);
    }
  }

  lemma NewProposalKept(ps: Proposals, id: string, p: Proposal)
    requires id !in ps
    ensures ProposalsKept(ps, ps[id := p])
  {
  }

  lemma ProposeKeeps(ps: Proposals, s: Store, caller: Identity, id: string, t: EventType, subject: string,
                     payload: Payload)
    requires ProposalsMatch(ps, s) && BusinessMsp(caller.msp) && Propose(ps, caller, id, t, subject, payload).Some?
    ensures var next := Propose(ps, caller, id, t, subject, payload).value;
            ProposalsMatch(next, s) && ProposalsKept(ps, next)
  {
    var p := Proposal(t, subject, payload, caller.msp, [Approval(caller.msp, caller.clientHash)], None);
    NewProposalKeeps(ps, s, id, p);
    NewProposalKept(ps, id, p);
  }

  lemma ApproveKeepsOthers(ps: Proposals, caller: Identity, id: string)
    requires Approve(ps, caller, id).Some?
    ensures ProposalsKept(ps, Approve(ps, caller, id).value)
  {
  }

  /** Three approving business MSPs mean three approvals. */
  lemma {:induction false} ApproversBound(s: seq<Approval>)
    ensures |Approvers(s)| <= |s|
  {
    if s != [] {
      var front, a := s[..|s| - 1], s[|s| - 1];
      ApproversBound(front);
      assert s == front + [a];
      assert Approvers(s) == Approvers(front) + if BusinessMsp(a.msp) then {a.msp} else {};
    }
  }

  lemma ApproversAfter(s: seq<Approval>, a: Approval)
    requires BusinessMsp(a.msp)
    ensures Approvers(InsertApproval(s, a)) == Approvers(s) + {a.msp}
  {
    InsertApprovalAdds(s, a);
    forall m ensures m in Approvers(InsertApproval(s, a)) <==> m in Approvers(s) + {a.msp} {
      if m in Approvers(s) {
        var x :| x in s && BusinessMsp(x.msp) && x.msp == m;
        assert x in InsertApproval(s, a);
      }
      assert a in InsertApproval(s, a);
    }
  }

  /** A proposal and two approvals reach the threshold exactly when they come from three organisations. */
  lemma ThreeOrganisationsSuffice(ps: Proposals, id: string, t: EventType, subject: string, payload: Payload,
                                  a: Identity, b: Identity, c: Identity)
    requires BusinessMsp(a.msp) && BusinessMsp(b.msp) && BusinessMsp(c.msp) && b.role == OrgAdmin && c.role == OrgAdmin
    requires Propose(ps, a, id, t, subject, payload).Some?
    ensures var p1 := Propose(ps, a, id, t, subject, payload).value;
            && Approve(p1, b, id).Some? && Approve(Approve(p1, b, id).value, c, id).Some?
            && var done := Approve(Approve(p1, b, id).value, c, id).value;
               |Approvers(done[id].approvals)| >= THRESHOLD <==> a.msp != b.msp && b.msp != c.msp && a.msp != c.msp
  {
    var p1 := Propose(ps, a, id, t, subject, payload).value;
    ProposedBy(ps, a, id, t, subject, payload);
    ApprovedBy(p1, b, id);
    ApprovedBy(Approve(p1, b, id).value, c, id);
    ThreeMsps(a.msp, b.msp, c.msp, Approvers(Approve(Approve(p1, b, id).value, c, id).value[id].approvals));
  }

  lemma ProposedBy(ps: Proposals, caller: Identity, id: string, t: EventType, subject: string, payload: Payload)
    requires BusinessMsp(caller.msp) && Propose(ps, caller, id, t, subject, payload).Some?
    ensures id in Propose(ps, caller, id, t, subject, payload).value
    ensures var q := Propose(ps, caller, id, t, subject, payload).value[id];
            q.finalEvent.None? && Approvers(q.approvals) == {caller.msp}
  {
    assert Approval(caller.msp, caller.clientHash) in Propose(ps, caller, id, t, subject, payload).value[id].approvals;
  }

  lemma ApprovedBy(ps: Proposals, caller: Identity, id: string)
    requires BusinessMsp(caller.msp) && caller.role == OrgAdmin && id in ps && ps[id].finalEvent.None?
    ensures Approve(ps, caller, id).Some? && id in Approve(ps, caller, id).value
    ensures var q := Approve(ps, caller, id).value[id];
            q.finalEvent.None? && Approvers(q.approvals) == Approvers(ps[id].approvals) + {caller.msp}
  {
    if !exists x :: x in ps[id].approvals && x.msp == caller.msp {
      ApproversAfter(ps[id].approvals, Approval(caller.msp, caller.clientHash));
    } else {
      assert caller.msp in Approvers(ps[id].approvals);
    }
  }

  lemma ThreeMsps(a: Msp, b: Msp, c: Msp, s: set<Msp>)
    requires s == {a} + {b} + {c}
    ensures |s| >= THRESHOLD <==> a != b && b != c && a != c
  {
    assert a == b ==> s == {a, c};
    assert b == c ==> s == {a, b};
    assert a == c ==> s == {a, b};
    assert s == {a, b, c};
  }

  /** An event that is not a governed one leaves the correspondence alone. */
  lemma PlainEventKeepsProposals(ps: Proposals, s: Store, e: Event)
    requires ProposalsMatch(ps, s) && e.id !in s.events && !Governed(e.etype)
    ensures ProposalsMatch(ps, Put(s, e))
  {
  }

  lemma PlainEventKeepsRewards(s: Store, e: Event)
    requires GovernedFinal(s) && RewardsMatch(s) && e.id !in s.events && e.id !in s.supersede && !Governed(e.etype)
    ensures GovernedFinal(Put(s, e)) && RewardsMatch(Put(s, e))
  {
    var t := Put(s, e);
    forall id | id in t.events && t.events[id].etype == RewardIssued
      ensures exists rule :: PaysBasis(t, t.events[id], rule) {
      PaysStays(s, e, t.events[id]);
    }
  }

  lemma FinalizeKeepsProposals(ps: Proposals, s: Store, e: Event, id: string)
    requires ProposalsMatch(ps, s) && e.id !in s.events
    requires id in ps && ps[id].finalEvent.None? && |Approvers(ps[id].approvals)| >= THRESHOLD
    requires e.etype == ps[id].etype && e.subject == ps[id].subject && e.payload == ps[id].payload
    ensures ProposalsMatch(ps[id := ps[id].(finalEvent := Some(e.id))], Put(s, e))
  {
    ApproversBound(ps[id].approvals);
    var next, t := ps[id := ps[id].(finalEvent := Some(e.id))], Put(s, e);
    forall x | x in t.events && Governed(t.events[x].etype)
      ensures exists p :: p in next && next[p].finalEvent == Some(x) {
      if x == e.id {
        assert next[id].finalEvent == Some(x);
      } else {
        var p :| p in ps && ps[p].finalEvent == Some(x);
        assert next[p].finalEvent == Some(x);
      }
    }
  }

  /** Basis events and their authors never change, so what a reward pays stays right. */
  lemma PaysStays(s: Store, e: Event, r: Event)
    requires e.id !in s.events && exists rule :: PaysBasis(s, r, rule)
    ensures exists rule :: PaysBasis(Put(s, e), r, rule)
  {
    var rule :| PaysBasis(s, r, rule);
    assert PaysBasis(Put(s, e), r, rule);
  }

  /** A governed event keeps every reward rule; a reward must have been due. */
  lemma GovernedEventKeeps(s: Store, e: Event)
    requires KeysMatch(s) && GovernedFinal(s) && RewardsMatch(s) && e.id !in s.events && e.id !in s.supersede
    requires Governed(e.etype) && e.actorMsp == ConsortiumMsp
    requires e.etype == RewardIssued ==> RewardAllowed(s, e.payload)
    ensures GovernedFinal(Put(s, e)) && RewardsMatch(Put(s, e))
  {
    var t := Put(s, e);
    if e.etype == RewardIssued {
      NewRewardIsNew(s, e);
    }
    forall id | id in t.events && t.events[id].etype == RewardIssued
      ensures exists rule :: PaysBasis(t, t.events[id], rule) {
      PaysStays(s, e, t.events[id]);
    }
    forall id, jd | id in t.events && jd in t.events && SameReward(t.events[id], t.events[jd]) ensures id == jd {
      assert id in s.events && jd in s.events ==> SameReward(s.events[id], s.events[jd]);
    }
  }

  lemma AllowedReward(s: Store, e: Event) returns (b: Event, rule: Rule)
    requires RewardAllowed(s, e.payload)
    ensures b in Listed(s, All, false) && rule in RULES && IsDue(s, Listed(s, All, false), b, rule)
    ensures RewardBasis(e) == [b.id] && RewardRule(e) == rule.id
    ensures RewardAmount(e.payload) == rule.amount && RewardRecipient(e.payload) == b.actorOrg
  {
    var claim := Claim(e.payload, RewardBasis(e)[0]);
    b :| b in Listed(s, All, false) && DueOn(s, Listed(s, All, false), b, claim);
    rule :| rule in RULES && IsDue(s, Listed(s, All, false), b, rule) && claim == DueFor(b, rule);
    assert claim.basis == b.id && claim.rule == rule.id;
  }

  lemma NewRewardIsNew(s: Store, e: Event)
    requires KeysMatch(s) && GovernedFinal(s) && RewardAllowed(s, e.payload)
    ensures exists rule :: PaysBasis(s, e, rule)
    ensures forall id | id in s.events && s.events[id].etype == RewardIssued ::
              RewardRule(s.events[id]) == RewardRule(e) ==> RewardBasis(s.events[id]) != RewardBasis(e)
  {
    ChosenDistinct(s, All, false);
    var b, rule := AllowedReward(s, e);
    InChosen(s, All, false, b);
    assert PaysBasis(s, e, rule);
    forall id | id in s.events && s.events[id].etype == RewardIssued && RewardRule(s.events[id]) == RewardRule(e)
      ensures RewardBasis(s.events[id]) != RewardBasis(e)
    {
      ListedReward(s, id, b.id, rule.id);
    }
  }

  lemma ListedReward(s: Store, id: string, basis: string, rule: string)
    requires KeysMatch(s) && GovernedFinal(s) && id in s.events && s.events[id].etype == RewardIssued
    requires RewardRule(s.events[id]) == rule
    requires !Rewarded(Listed(s, All, false), basis, rule)
    ensures basis !in RewardBasis(s.events[id])
  {
    var listed := Listed(s, All, false);
    ChosenDistinct(s, All, false);
    InChosen(s, All, false, s.events[id]);
    var i :| 0 <= i < |listed| && listed[i] == s.events[id];
  }

  // --------------------------------------------------------------------- balances

  ghost function RewardsOf(s: Store, org: string): set<string> {
    set id | id in s.events && s.events[id].etype == RewardIssued && RewardRecipient(s.events[id].payload) == org
  }

  ghost function RewardPoints(s: Store): string -> int {
    id => if id in s.events then RewardAmount(s.events[id].payload) else 0
  }

  ghost function EventPoints(s: Store): string -> int {
    id => if id in s.events then PointsFor(s.events[id].etype) else 0
  }

  ghost function Balance(s: Store, org: string): int {
    SumOver(RewardsOf(s, org), RewardPoints(s))
  }

  ghost predicate IsRewarded(s: Store, basis: string) {
    exists id :: id in s.events && s.events[id].etype == RewardIssued && RewardBasis(s.events[id]) == [basis]
  }

  /** The rewarded events of an organisation. */
  ghost function RewardedEvents(s: Store, org: string): set<string> {
    set b | b in s.events && s.events[b].actorOrg == org && IsRewarded(s, b)
  }

  function PointsFor(t: EventType): int {
    match t
    case ResidueCustody => 10
    case LabVerification => 15
    case ReturnOrSale => 20
    case UsefulOutput => 25
    case Milling => 5
    case ConsumerVerification => 1
    case _ => 0
  }

  ghost function Image(s: set<string>, h: string -> string): set<string> {
    set x | x in s :: h(x)
  }

  /** Summing over a set is summing over its image under an injection. */
  lemma {:induction false} SumImage(s: set<string>, f: string -> int, g: string -> int, h: string -> string)
    requires forall x :: x in s ==> f(x) == g(h(x))
    requires forall x, y :: x in s && y in s && h(x) == h(y) ==> x == y
    ensures SumOver(s, f) == SumOver(Image(s, h), g)
    decreases s
  {
    if s == {} {
      assert Image(s, h) == {};
    } else {
      var x :| x in s;
      var rest := s - {x};
      SumImage(rest, f, g, h);
      SumInsert(rest, x, f);
      SumInsert(Image(rest, h), h(x), g);
      assert rest + {x} == s && Image(rest, h) + {h(x)} == Image(s, h);
    }
  }

  /** The one event a reward is based on. */
  ghost function BasisAt(s: Store, id: string): string {
    if id in s.events && |RewardBasis(s.events[id])| == 1 then RewardBasis(s.events[id])[0] else ""
  }

  /** No event is rewarded twice, under any rule. */
  lemma OneRewardPerEvent(s: Store, id: string, jd: string)
    requires RewardsMatch(s) && id in s.events && jd in s.events
    requires s.events[id].etype == RewardIssued && s.events[jd].etype == RewardIssued
    requires exists b :: b in RewardBasis(s.events[id]) && b in RewardBasis(s.events[jd])
    ensures id == jd
  {
    var r :| PaysBasis(s, s.events[id], r);
    var q :| PaysBasis(s, s.events[jd], q);
    RulesByType(r, q);
    assert RewardBasis(s.events[id]) == RewardBasis(s.events[jd]);
  }

  ghost function BasisOf(s: Store): string -> string {
    id => BasisAt(s, id)
  }

  /** An organisation's balance is the points of its own rewarded events, each counted once. */
  lemma BalanceIsPoints(s: Store, org: string)
    requires RewardsMatch(s)
    ensures Balance(s, org) == SumOver(RewardedEvents(s, org), EventPoints(s))
    ensures Balance(s, org) <= 25 * |RewardedEvents(s, org)|
  {
    RewardsAgree(s, org);
    SumImage(RewardsOf(s, org), RewardPoints(s), EventPoints(s), BasisOf(s));
    ImageIsRewarded(s, org);
    PointsBounded(s, org);
    SumBound(RewardedEvents(s, org), EventPoints(s), 25);
  }

  lemma PointsBounded(s: Store, org: string)
    ensures forall id :: id in RewardedEvents(s, org) ==> EventPoints(s)(id) <= 25
  {
  }

  lemma RewardsAgree(s: Store, org: string)
    requires RewardsMatch(s)
    ensures forall id :: id in RewardsOf(s, org) ==> RewardPoints(s)(id) == EventPoints(s)(BasisOf(s)(id))
    ensures forall id, jd :: id in RewardsOf(s, org) && jd in RewardsOf(s, org) && BasisOf(s)(id) == BasisOf(s)(jd) ==>
            id == jd
  {
    forall id | id in RewardsOf(s, org) ensures RewardPoints(s)(id) == EventPoints(s)(BasisOf(s)(id)) {
      RewardHasPoints(s, id);
    }
    forall id, jd | id in RewardsOf(s, org) && jd in RewardsOf(s, org) && BasisOf(s)(id) == BasisOf(s)(jd)
      ensures id == jd {
      SameBasisSameReward(s, id, jd);
    }
  }

  lemma ImageIsRewarded(s: Store, org: string)
    requires RewardsMatch(s)
    ensures Image(RewardsOf(s, org), BasisOf(s)) == RewardedEvents(s, org)
  {
    forall id | id in RewardsOf(s, org) ensures BasisOf(s)(id) in RewardedEvents(s, org) {
      RewardHasPoints(s, id);
    }
    forall b | b in RewardedEvents(s, org) ensures b in Image(RewardsOf(s, org), BasisOf(s)) {
      var id := RewardOn(s, b);
      assert id in RewardsOf(s, org) && BasisOf(s)(id) == b;
    }
  }

  lemma SameBasisSameReward(s: Store, id: string, jd: string)
    requires RewardsMatch(s) && id in s.events && jd in s.events && BasisAt(s, id) == BasisAt(s, jd)
    requires s.events[id].etype == RewardIssued && s.events[jd].etype == RewardIssued
    ensures id == jd
  {
    RewardHasPoints(s, id);
    RewardHasPoints(s, jd);
    assert BasisAt(s, id) in RewardBasis(s.events[id]) && BasisAt(s, id) in RewardBasis(s.events[jd]);
    OneRewardPerEvent(s, id, jd);
  }

  lemma RewardOn(s: Store, basis: string) returns (id: string)
    requires RewardsMatch(s) && IsRewarded(s, basis)
    ensures id in s.events && s.events[id].etype == RewardIssued && BasisAt(s, id) == basis
    ensures basis in s.events && RewardRecipient(s.events[id].payload) == s.events[basis].actorOrg
  {
    id :| id in s.events && s.events[id].etype == RewardIssued && RewardBasis(s.events[id]) == [basis];
    RewardHasPoints(s, id);
  }

  lemma RewardHasPoints(s: Store, id: string)
    requires RewardsMatch(s) && id in s.events && s.events[id].etype == RewardIssued
    ensures RewardBasis(s.events[id]) == [BasisAt(s, id)] && BasisAt(s, id) in s.events && IsRewarded(s, BasisAt(s, id))
    ensures RewardAmount(s.events[id].payload) == PointsFor(s.events[BasisAt(s, id)].etype)
    ensures RewardRecipient(s.events[id].payload) == s.events[BasisAt(s, id)].actorOrg
  {
    var rule :| PaysBasis(s, s.events[id], rule);
    var basis := RewardBasis(s.events[id]);
    assert basis == [basis[0]];
    RulePoints(rule);
  }

  lemma RulePoints(rule: Rule)
    requires rule in RULES
    ensures rule.amount == PointsFor(rule.etype)
  {
  }
}
