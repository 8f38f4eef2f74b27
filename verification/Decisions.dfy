/** Exactly which role and consortium decisions are accepted, by whom, and what they leave behind. */
module Decisions {
  import opened Values
  import opened Events
  import opened Wallets
  import opened Governance
  import opened World
  import opened Guarantees
  import opened Acceptance
  import EventStore
  import RewardLaws

  /** The certificate is an organisation administrator's; if it names a wallet, the role is active for it. */
  ghost predicate Administers(reg: Registry, c: Ctx) {
    c.role == Some(OrgAdmin) && BusinessMsp(c.msp) && (c.wallet == "" || Bound(reg, c))
  }

  lemma AdministersIs(reg: Registry, c: Ctx)
    requires RegistryInv(reg)
    ensures Caller(c).Some? && MayAdminister(reg, Caller(c).value) <==> Administers(reg, c)
    ensures Caller(c).Some? && Caller(c).value.role == OrgAdmin <==> c.role == Some(OrgAdmin) && BusinessMsp(c.msp)
  {
    if Caller(c).Some? {
      BoundIs(reg, c);
    }
  }

  /** The organisation a role belongs to; an administrator's role belongs to any. */
  predicate BelongsTo(r: Role, org: string) {
    || (r == Farmer && org == "farmer-org")
    || ((r == Mill || r == Laboratory || r == Bottler) && org == "maker-org")
    || ((r == Collector || r == Distributor || r == Retailer) && org == "courier-org")
    || (r == Processor && org == "recycler-org")
  }

  /** The roles a wallet may ask for itself. */
  predicate OpenRole(r: Role) {
    r == Farmer || r == Collector || r == Distributor || r == Retailer
  }

  lemma RoleOrgs(r: Role)
    ensures forall org :: RoleOrg(r) == Some(org) <==> BelongsTo(r, org)
    ensures forall org :: PublicRoleOrg(r) == Some(org) <==> OpenRole(r) && BelongsTo(r, org)
  {
  }

  function OrgOf(m: Msp): string {
    match m
    case FarmerMsp => "farmer-org"
    case MakerMsp => "maker-org"
    case CourierMsp => "courier-org"
    case RecyclerMsp => "recycler-org"
    case _ => ""
  }

  /** A certificate may hold a role exactly when the role belongs to its organisation; all four have
      administrators, and the courier's also stand for consumers. */
  lemma RoleHolders(m: Msp, r: Role)
    ensures r in MspRoles(m) <==>
              BelongsTo(r, OrgOf(m)) || (r == OrgAdmin && BusinessMsp(m)) || (r == Consumer && m == CourierMsp)
  {
  }

  // -------------------------------------------------------------- registration and requests

  /** Registration needs a name of 1 to 120 characters, the address its key yields, and a new address. */
  lemma RegisterExactly(w: State, c: Ctx, address: string, derived: Option<string>, name: string)
    ensures Accepted(w, c, RegisterWallet(address, derived, name)) <==>
              && Fresh(w, c) && c.role.Some? && c.role.value in MspRoles(c.msp)
              && 1 <= |name| <= 120 && derived == Some(address) && address !in w.registry.wallets
  {
    AcceptedIs(w, c, RegisterWallet(address, derived, name));
  }

  /** A role is asked for a registered wallet without an active role and without an open request. */
  lemma RequestExactly(w: State, c: Ctx, address: string, role: Role)
    requires RegistryInv(w.registry)
    ensures Accepted(w, c, RequestWalletRole(address, role)) <==>
              && Fresh(w, c) && c.role.Some? && c.role.value in MspRoles(c.msp)
              && OpenRole(role) && address in w.registry.wallets
              && Inactive(w.registry, address) && forall r :: !OpenFor(w.registry, r, address)
  {
    AcceptedIs(w, c, RequestWalletRole(address, role));
    RequestGate(w.registry, address, role, c.txId);
  }

  lemma RequestGate(reg: Registry, address: string, role: Role, txId: string)
    requires RegistryInv(reg)
    ensures RequestRole(reg, address, role, txId).Some? <==>
              && OpenRole(role) && address in reg.wallets
              && Inactive(reg, address) && forall r :: !OpenFor(reg, r, address)
  {
    InactiveIs(reg, address);
    if r :| r in reg.requests && reg.requests[r].wallet == address && reg.requests[r].decision == Undecided {
      assert OpenFor(reg, r, address);
    }
  }

  // -------------------------------------------------------------------------- grants

  /** No other certificate acts for the wallet, and the certificate acts for no other wallet. */
  ghost predicate Unbound(reg: Registry, address: string, clientHash: string) {
    && (forall h :: ActiveAs(reg, address, h) ==> h == clientHash)
    && (forall a :: ActiveAs(reg, a, clientHash) ==> a == address)
  }

  lemma UnboundIs(reg: Registry, address: string, clientHash: string)
    requires RegistryInv(reg) && address in reg.wallets
    ensures Unbound(reg, address, clientHash) <==>
              && !(reg.wallets[address].status == Active && reg.wallets[address].clientHash != clientHash)
              && !(clientHash in reg.clients && reg.clients[clientHash] != address)
  {
    if reg.wallets[address].status == Active {
      assert ActiveAs(reg, address, reg.wallets[address].clientHash);
    }
    if clientHash in reg.clients {
      assert ActiveAs(reg, reg.clients[clientHash], clientHash);
    }
  }

  lemma GrantGate(reg: Registry, admin: Identity, org: Option<string>, address: string, role: Role,
                  clientHash: string, alias: string, requestId: string)
    requires RegistryInv(reg)
    ensures Grant(reg, admin, org, address, role, clientHash, alias, requestId).Some? <==>
              && org.Some? && (if role == OrgAdmin then admin.wallet == "" else BelongsTo(role, org.value))
              && clientHash != "" && alias != "" && address in reg.wallets && Unbound(reg, address, clientHash)
  {
    RoleOrgs(role);
    if address in reg.wallets {
      UnboundIs(reg, address, clientHash);
    }
  }

  /** An administrator grants a role of its own organisation to a registered wallet, under a certificate that acts
      for no other wallet; only an administrator without a wallet grants the administrator's role. */
  lemma GrantExactly(w: State, c: Ctx, address: string, role: Role, clientHash: string, alias: string)
    requires RegistryInv(w.registry)
    ensures Accepted(w, c, GrantWalletRole(address, role, clientHash, alias)) <==>
              && Fresh(w, c) && Administers(w.registry, c)
              && c.org.Some? && (if role == OrgAdmin then c.wallet == "" else BelongsTo(role, c.org.value))
              && clientHash != "" && alias != "" && address in w.registry.wallets
              && Unbound(w.registry, address, clientHash)
  {
    AcceptedIs(w, c, GrantWalletRole(address, role, clientHash, alias));
    AdministersIs(w.registry, c);
    if Caller(c).Some? {
      GrantRoleGate(w.registry, Caller(c).value, c.org, address, role, clientHash, alias);
    }
  }

  lemma GrantRoleGate(reg: Registry, admin: Identity, org: Option<string>, address: string, role: Role,
                      clientHash: string, alias: string)
    requires RegistryInv(reg)
    ensures GrantRole(reg, admin, org, address, role, clientHash, alias).Some? <==>
              && MayAdminister(reg, admin)
              && org.Some? && (if role == OrgAdmin then admin.wallet == "" else BelongsTo(role, org.value))
              && clientHash != "" && alias != "" && address in reg.wallets && Unbound(reg, address, clientHash)
  {
    GrantGate(reg, admin, org, address, role, clientHash, alias, "");
  }

  /** An approval needs an open request to the administrator's own organisation, and what a grant needs. */
  lemma ApproveExactly(w: State, c: Ctx, requestId: string, clientHash: string, alias: string)
    requires RegistryInv(w.registry)
    ensures Accepted(w, c, ApproveWalletRole(requestId, clientHash, alias)) <==>
              && Fresh(w, c) && Administers(w.registry, c) && requestId in w.registry.requests
              && var q := w.registry.requests[requestId];
                 && q.decision == Undecided && c.org == Some(q.org)
                 && (if q.role == OrgAdmin then c.wallet == "" else BelongsTo(q.role, q.org))
                 && clientHash != "" && alias != "" && Unbound(w.registry, q.wallet, clientHash)
  {
    AcceptedIs(w, c, ApproveWalletRole(requestId, clientHash, alias));
    AdministersIs(w.registry, c);
    if Caller(c).Some? {
      ApproveGate(w.registry, Caller(c).value, c.org, requestId, clientHash, alias);
    }
  }

  lemma ApproveGate(reg: Registry, admin: Identity, org: Option<string>, requestId: string, clientHash: string,
                    alias: string)
    requires RegistryInv(reg)
    ensures ApproveRequest(reg, admin, org, requestId, clientHash, alias).Some? <==>
              && MayAdminister(reg, admin) && requestId in reg.requests
              && var q := reg.requests[requestId];
                 && q.decision == Undecided && org == Some(q.org)
                 && (if q.role == OrgAdmin then admin.wallet == "" else BelongsTo(q.role, q.org))
                 && clientHash != "" && alias != "" && Unbound(reg, q.wallet, clientHash)
  {
    if requestId in reg.requests {
      var q := reg.requests[requestId];
      GrantGate(reg, admin, org, q.wallet, q.role, clientHash, alias, requestId);
    }
  }

  /** A rejection needs an open request to the administrator's own organisation. */
  lemma RejectExactly(w: State, c: Ctx, requestId: string, reason: string)
    requires RegistryInv(w.registry)
    ensures Accepted(w, c, RejectWalletRole(requestId, reason)) <==>
              && Fresh(w, c) && Administers(w.registry, c) && requestId in w.registry.requests
              && w.registry.requests[requestId].decision == Undecided
              && c.org == Some(w.registry.requests[requestId].org)
  {
    AcceptedIs(w, c, RejectWalletRole(requestId, reason));
    AdministersIs(w.registry, c);
  }

  /** A revocation needs an active role that the administrator's own organisation gave. */
  lemma RevokeExactly(w: State, c: Ctx, address: string)
    requires RegistryInv(w.registry)
    ensures Accepted(w, c, RevokeWalletRole(address)) <==>
              && Fresh(w, c) && Administers(w.registry, c) && !Inactive(w.registry, address)
              && w.registry.wallets[address].msp == Some(c.msp)
  {
    AcceptedIs(w, c, RevokeWalletRole(address));
    AdministersIs(w.registry, c);
    InactiveIs(w.registry, address);
  }

  // ------------------------------------------------------------------ what they leave

  /** Of the requests, those of the wallet that were open are superseded by the organisation; `except` is apart. */
  ghost predicate OthersClosed(reg: Registry, next: Registry, address: string, except: string, decider: Msp) {
    && next.requests.Keys == reg.requests.Keys
    && forall r :: r in reg.requests && r != except ==>
         var q, now := reg.requests[r], next.requests[r];
         now == if OpenFor(reg, r, address)
                  then RoleRequest(address, q.role, q.org, Superseded, Some(decider), now.reason) else q
  }

  predicate GrantedTo(next: Registry, reg: Registry, address: string, role: Role, c: Ctx, clientHash: string,
                      alias: string)
  {
    c.org.Some? && next.wallets == reg.wallets[address :=
      Wallet(true, c.org.value, Some(c.msp), role, Active, alias, clientHash, "")]
  }

  lemma GrantLeaves(w: State, c: Ctx, address: string, role: Role, clientHash: string, alias: string)
    requires Accepted(w, c, GrantWalletRole(address, role, clientHash, alias)) && RegistryInv(w.registry)
    ensures var reg, next := w.registry, Step(w, c, GrantWalletRole(address, role, clientHash, alias)).registry;
            GrantedTo(next, reg, address, role, c, clientHash, alias) && OthersClosed(reg, next, address, "", c.msp)
  {
    StepIs(w, c, GrantWalletRole(address, role, clientHash, alias));
  }

  lemma ApproveLeaves(w: State, c: Ctx, requestId: string, clientHash: string, alias: string)
    requires Accepted(w, c, ApproveWalletRole(requestId, clientHash, alias))
    ensures requestId in w.registry.requests
    ensures var reg, next := w.registry, Step(w, c, ApproveWalletRole(requestId, clientHash, alias)).registry;
            var q := reg.requests[requestId];
            && GrantedTo(next, reg, q.wallet, q.role, c, clientHash, alias)
            && OthersClosed(reg, next, q.wallet, requestId, c.msp)
            && next.requests[requestId] == RoleRequest(q.wallet, q.role, q.org, Approved, Some(c.msp), "approved")
  {
    StepIs(w, c, ApproveWalletRole(requestId, clientHash, alias));
  }

  /** A new wallet is a consumer's. */
  lemma RegisterLeaves(w: State, c: Ctx, address: string, derived: Option<string>, name: string)
    requires Accepted(w, c, RegisterWallet(address, derived, name))
    ensures Step(w, c, RegisterWallet(address, derived, name)).registry == w.registry.(
              wallets := w.registry.wallets[address := Wallet(true, "", None, Consumer, ConsumerOnly, "", "", "")])
  {
    StepIs(w, c, RegisterWallet(address, derived, name));
  }

  /** The wallet waits for the new request, which is open and goes to the role's organisation. */
  lemma RequestLeaves(w: State, c: Ctx, address: string, role: Role)
    requires Accepted(w, c, RequestWalletRole(address, role))
    ensures address in w.registry.wallets
    ensures var reg, next := w.registry, Step(w, c, RequestWalletRole(address, role)).registry;
            var v, id := reg.wallets[address], "WRR-" + c.txId;
            && next.clients == reg.clients && next.requests.Keys == reg.requests.Keys + {id}
            && (forall r :: r in reg.requests && r != id ==> next.requests[r] == reg.requests[r])
            && next.requests[id] == RoleRequest(address, role, next.requests[id].org, Undecided, None, "")
            && BelongsTo(role, next.requests[id].org)
            && next.wallets == reg.wallets[address :=
                 Wallet(v.enabled, v.org, v.msp, v.role, Pending, v.alias, v.clientHash, id)]
  {
    StepIs(w, c, RequestWalletRole(address, role));
    RoleOrgs(role);
  }

  /** A revoked wallet keeps what it had but its standing. */
  lemma RevokeLeaves(w: State, c: Ctx, address: string)
    requires Accepted(w, c, RevokeWalletRole(address))
    ensures address in w.registry.wallets
    ensures var reg, next := w.registry, Step(w, c, RevokeWalletRole(address)).registry;
            var v := reg.wallets[address];
            && next.requests == reg.requests
            && next.wallets == reg.wallets[address :=
                 Wallet(v.enabled, v.org, v.msp, v.role, Revoked, v.alias, v.clientHash, v.pendingRequest)]
  {
    StepIs(w, c, RevokeWalletRole(address));
  }

  /** A rejected wallet is a consumer's again. */
  lemma RejectLeaves(w: State, c: Ctx, requestId: string, reason: string)
    requires Accepted(w, c, RejectWalletRole(requestId, reason))
    ensures requestId in w.registry.requests && w.registry.requests[requestId].wallet in w.registry.wallets
    ensures var reg, next := w.registry, Step(w, c, RejectWalletRole(requestId, reason)).registry;
            var q := reg.requests[requestId];
            var v := reg.wallets[q.wallet];
            && next.requests == reg.requests[requestId :=
                 RoleRequest(q.wallet, q.role, q.org, Rejected, Some(c.msp), reason)]
            && next.wallets == reg.wallets[q.wallet :=
                 Wallet(v.enabled, v.org, v.msp, Consumer, ConsumerOnly, v.alias, v.clientHash, "")]
  {
    StepIs(w, c, RejectWalletRole(requestId, reason));
  }

  // ----------------------------------------------------------------- in every reachable state

  /** Requests and active roles are of roles that belong to their organisation. */
  ghost predicate OrgsMatch(reg: Registry) {
    && (forall r :: r in reg.requests ==> OpenRole(reg.requests[r].role)
                                          && BelongsTo(reg.requests[r].role, reg.requests[r].org))
    && (forall a :: a in reg.wallets && reg.wallets[a].status == Active ==>
          && reg.wallets[a].msp.Some? && BusinessMsp(reg.wallets[a].msp.value)
          && (reg.wallets[a].role == OrgAdmin || BelongsTo(reg.wallets[a].role, reg.wallets[a].org)))
  }

  lemma StepKeepsOrgs(w: State, c: Ctx, tx: Tx)
    requires RegistryInv(w.registry) && OrgsMatch(w.registry)
    ensures OrgsMatch(Step(w, c, tx).registry)
  {
    StepIs(w, c, tx);
    if Accepted(w, c, tx) {
      CallerIsBusiness(c);
      AttemptKeepsOrgs(w, c, tx);
    }
  }

  lemma AttemptKeepsOrgs(w: State, c: Ctx, tx: Tx)
    requires OrgsMatch(w.registry) && Attempt(w, c, tx).Some? && BusinessMsp(c.msp)
    ensures OrgsMatch(Attempt(w, c, tx).value.registry)
  {
    match tx {
      case RegisterWallet(address, derived, name) => RegisterKeepsOrgs(w.registry, address, derived, name);
      case RequestWalletRole(address, role) => RequestKeepsOrgs(w.registry, address, role, c.txId);
      case RejectWalletRole(requestId, reason) =>
        RejectKeepsOrgs(w.registry, Caller(c).value, c.org, requestId, reason);
      case RevokeWalletRole(address) => RevokeKeepsOrgs(w.registry, Caller(c).value, address);
      case GrantWalletRole(address, role, clientHash, alias) =>
        GrantKeepsOrgs(w.registry, Caller(c).value, c.org, address, role, clientHash, alias, "");
      case ApproveWalletRole(requestId, clientHash, alias) =>
        ApproveKeepsOrgs(w.registry, Caller(c).value, c.org, requestId, clientHash, alias);
      case _ =>
    }
  }

  lemma RegisterKeepsOrgs(reg: Registry, address: string, derived: Option<string>, name: string)
    requires OrgsMatch(reg) && Register(reg, address, derived, name).Some?
    ensures OrgsMatch(Register(reg, address, derived, name).value)
  {
  }

  lemma RequestKeepsOrgs(reg: Registry, address: string, role: Role, txId: string)
    requires OrgsMatch(reg) && RequestRole(reg, address, role, txId).Some?
    ensures OrgsMatch(RequestRole(reg, address, role, txId).value)
  {
    RoleOrgs(role);
  }

  lemma RejectKeepsOrgs(reg: Registry, admin: Identity, org: Option<string>, requestId: string, reason: string)
    requires OrgsMatch(reg) && RejectRequest(reg, admin, org, requestId, reason).Some?
    ensures OrgsMatch(RejectRequest(reg, admin, org, requestId, reason).value)
  {
  }

  lemma RevokeKeepsOrgs(reg: Registry, admin: Identity, address: string)
    requires OrgsMatch(reg) && RevokeRole(reg, admin, address).Some?
    ensures OrgsMatch(RevokeRole(reg, admin, address).value)
  {
  }

  lemma ApproveKeepsOrgs(reg: Registry, admin: Identity, org: Option<string>, requestId: string, clientHash: string,
                         alias: string)
    requires OrgsMatch(reg) && BusinessMsp(admin.msp)
    requires ApproveRequest(reg, admin, org, requestId, clientHash, alias).Some?
    ensures OrgsMatch(ApproveRequest(reg, admin, org, requestId, clientHash, alias).value)
  {
    var q := reg.requests[requestId];
    GrantKeepsOrgs(reg, admin, org, q.wallet, q.role, clientHash, alias, requestId);
  }

  lemma GrantKeepsOrgs(reg: Registry, admin: Identity, org: Option<string>, address: string, role: Role,
                       clientHash: string, alias: string, requestId: string)
    requires OrgsMatch(reg) && BusinessMsp(admin.msp)
    requires Grant(reg, admin, org, address, role, clientHash, alias, requestId).Some?
    ensures OrgsMatch(Grant(reg, admin, org, address, role, clientHash, alias, requestId).value)
  {
    RoleOrgs(role);
  }

  /** Whoever has an active role has one of its own organisation. */
  lemma {:induction false} RolesBelong(txs: Script)
    ensures OrgsMatch(Run(GENESIS, txs).registry)
  {
    if txs != [] {
      var front, last := txs[..|txs| - 1], txs[|txs| - 1];
      RolesBelong(front);
      Reached(front);
      StepKeepsOrgs(Run(GENESIS, front), last.0, last.1);
    }
  }

  /** Whoever decides a request, gives or takes a role, or touches a proposal is an organisation administrator. */
  lemma OnlyAdministratorsDecide(w: State, c: Ctx, tx: Tx)
    requires RequestsSourced(w.registry, w.used)
    requires var next := Step(w, c, tx);
             || next.proposals != w.proposals
             || (exists r :: r in w.registry.requests && w.registry.requests[r] != next.registry.requests[r])
             || (exists a, h :: ActiveAs(w.registry, a, h) != ActiveAs(next.registry, a, h))
    ensures c.role == Some(OrgAdmin) && BusinessMsp(c.msp)
  {
    StepIs(w, c, tx);
    CallerIsBusiness(c);
  }

  // ---------------------------------------------------------------------- the consortium

  ghost predicate ConsortiumAdmin(c: Ctx) {
    c.role == Some(OrgAdmin) && BusinessMsp(c.msp)
  }

  lemma ProposeExactly(w: State, c: Ctx, tx: Tx)
    requires tx.ProposeEvent?
    ensures Accepted(w, c, tx) <==>
              && Fresh(w, c) && ConsortiumAdmin(c)
              && tx.etype in {RewardIssued, ReviewFlag, ReviewResolution} && PayloadAccepted(tx.etype, tx.payload)
              && tx.proposalId != "" && tx.proposalId !in w.proposals
    ensures Accepted(w, c, tx) ==> Step(w, c, tx).proposals == w.proposals[tx.proposalId :=
              Proposal(tx.etype, tx.subject, tx.payload, c.msp, [Approval(c.msp, c.clientHash)], None)]
  {
    AcceptedIs(w, c, tx);
    StepIs(w, c, tx);
  }

  /** An approval adds the organisation's once, and changes nothing else. */
  lemma ApproveProposalExactly(w: State, c: Ctx, id: string)
    ensures Accepted(w, c, ApproveProposal(id)) <==>
              Fresh(w, c) && ConsortiumAdmin(c) && id in w.proposals && w.proposals[id].finalEvent.None?
    ensures Accepted(w, c, ApproveProposal(id)) ==>
              && var was, next := w.proposals[id], Step(w, c, ApproveProposal(id)).proposals;
                 && next == w.proposals[id := was.(approvals := next[id].approvals)]
                 && (if exists a :: a in was.approvals && a.msp == c.msp then next[id].approvals == was.approvals
                     else
                       && |next[id].approvals| == |was.approvals| + 1
                       && forall a :: a in next[id].approvals <==>
                            a in was.approvals || a == Approval(c.msp, c.clientHash))
  {
    AcceptedIs(w, c, ApproveProposal(id));
    StepIs(w, c, ApproveProposal(id));
    if id in w.proposals {
      InsertApprovalAdds(w.proposals[id].approvals, Approval(c.msp, c.clientHash));
    }
  }

  /** What finalizing re-checks: a reward is earned by its basis event as the ledger stands, a flag names a stored
      event, a resolution a stored flag. */
  ghost predicate StillHolds(s: EventStore.Store, t: EventType, p: Payload) {
    && (t == RewardIssued ==>
          var basis := Field(p, "basis_events");
          && basis.JArray? && |basis.items| == 1
          && exists b :: RewardLaws.Earns(s, b, Due(AsString(Field(p, "recipient")),
                                                    Truncate(AsFloat(Field(p, "amount"))),
                                                    AsString(Field(p, "reward_rule")), AsString(basis.items[0]))))
    && (t == ReviewFlag ==> AsString(Field(p, "subject_event")) in s.events)
    && (t == ReviewResolution ==>
          var flag := AsString(Field(p, "flag_event")); flag in s.events && s.events[flag].etype == ReviewFlag)
  }

  ghost predicate ApprovedBy(s: seq<Approval>, m: Msp) {
    BusinessMsp(m) && exists a :: a in s && a.msp == m
  }

  /** Three different business organisations approve. */
  ghost predicate ThreeOrganisations(s: seq<Approval>) {
    exists x, y, z :: ApprovedBy(s, x) && ApprovedBy(s, y) && ApprovedBy(s, z) && x != y && y != z && x != z
  }

  lemma ThreeMembers<T>(all: set<T>) returns (x: T, y: T, z: T)
    requires |all| >= 3
    ensures {x, y, z} <= all && x != y && y != z && x != z
  {
    x :| x in all;
    assert |all - {x}| == |all| - 1;
    y :| y in all - {x};
    assert |all - {x} - {y}| == |all| - 2;
    z :| z in all - {x} - {y};
  }

  lemma ThreeAre(s: seq<Approval>)
    ensures |Approvers(s)| >= THRESHOLD <==> ThreeOrganisations(s)
  {
    var all := Approvers(s);
    assert forall m :: m in all <==> ApprovedBy(s, m);
    if |all| >= THRESHOLD {
      var x, y, z := ThreeMembers(all);
      assert ApprovedBy(s, x) && ApprovedBy(s, y) && ApprovedBy(s, z);
    }
    if x, y, z :| ApprovedBy(s, x) && ApprovedBy(s, y) && ApprovedBy(s, z) && x != y && y != z && x != z {
      assert |{x, y, z}| == 3;
      EventStore.CardinalityMonotone({x, y, z}, all);
    }
  }

  lemma CheckIs(s: EventStore.Store, p: Proposal)
    ensures FinalCheck(s, p) <==> StillHolds(s, p.etype, p.payload)
  {
    RewardLaws.AllowedExactly(s, p.payload);
  }

  /** Three of the four business organisations approve the proposal, it is not final yet, what it claims still
      holds of the ledger, and its event's id is new. */
  ghost predicate Finalizable(w: State, c: Ctx, id: string, eventId: string) {
    && id in w.proposals
    && var p := w.proposals[id];
       && p.finalEvent.None? && ThreeOrganisations(p.approvals) && StillHolds(w.store, p.etype, p.payload)
       && p.subject != "" && PayloadAccepted(p.etype, p.payload)
       && (if eventId == "" then c.txId else eventId) !in w.store.events
  }

  lemma FinalizeGate(w: State, c: Ctx, caller: Identity, id: string, eventId: string)
    requires id in w.proposals ==> Governed(w.proposals[id].etype)
    ensures Finalize(w, c, caller, id, eventId).Some? <==>
              caller.role == OrgAdmin && Finalizable(w, c, id, eventId)
  {
    if id in w.proposals {
      ThreeAre(w.proposals[id].approvals);
      CheckIs(w.store, w.proposals[id]);
    }
  }

  lemma FinalizeAttempt(w: State, c: Ctx, id: string, eventId: string)
    ensures Attempt(w, c, FinalizeProposal(id, eventId)).Some? <==>
              Caller(c).Some? && Finalize(w, c, Caller(c).value, id, eventId).Some?
  {
  }

  /** A proposal is finalized exactly when it can be and an organisation administrator asks for it. */
  lemma FinalizeExactly(w: State, c: Ctx, id: string, eventId: string)
    requires id in w.proposals ==> Governed(w.proposals[id].etype)
    ensures Accepted(w, c, FinalizeProposal(id, eventId)) <==>
              Fresh(w, c) && ConsortiumAdmin(c) && Finalizable(w, c, id, eventId)
  {
    AcceptedIs(w, c, FinalizeProposal(id, eventId));
    FinalizeAttempt(w, c, id, eventId);
    if Caller(c).Some? {
      FinalizeGate(w, c, Caller(c).value, id, eventId);
    }
  }

  /** It is written as an event of the consortium, under the administrator's certificate, and made final. */
  lemma FinalizeLeaves(w: State, c: Ctx, id: string, eventId: string)
    requires Accepted(w, c, FinalizeProposal(id, eventId))
    ensures id in w.proposals
    ensures var p, next := w.proposals[id], Step(w, c, FinalizeProposal(id, eventId));
            var e := if eventId == "" then c.txId else eventId;
            && next.proposals == w.proposals[id := p.(finalEvent := Some(e))]
            && next.store.events == w.store.events[e :=
                 Event(e, p.etype, p.subject, "consortium-authority", ConsortiumMsp, Authority, "", c.clientHash,
                       c.seconds, c.nanos, p.payload)]
  {
    StepIs(w, c, FinalizeProposal(id, eventId));
  }

  // ------------------------------------------------------------------ approvals in order

  ghost predicate InNameOrder(s: seq<Approval>) {
    forall i, j :: 0 <= i < j < |s| ==> LexLess(MspName(s[i].msp), MspName(s[j].msp))
  }

  lemma RankIsNameOrder(x: Msp, y: Msp)
    requires BusinessMsp(x) && BusinessMsp(y)
    ensures MspRank(x) < MspRank(y) <==> LexLess(MspName(x), MspName(y))
    ensures MspRank(x) == MspRank(y) ==> x == y
  {
    var first := match MspRank(x) case 0 => 'C' case 1 => 'F' case 2 => 'M' case _ => 'R';
    var second := match MspRank(y) case 0 => 'C' case 1 => 'F' case 2 => 'M' case _ => 'R';
    assert MspName(x)[0] == first && MspName(y)[0] == second;
    if x == y {
      LexAsymmetric(MspName(x), MspName(y));
    }
  }

  /** The approvals of business organisations, by rank. */
  ghost predicate Ranked(s: seq<Approval>) {
    && (forall i :: 0 <= i < |s| ==> BusinessMsp(s[i].msp))
    && forall i, j :: 0 <= i < j < |s| ==> MspRank(s[i].msp) < MspRank(s[j].msp)
  }

  lemma {:induction false} InsertKeepsRanked(s: seq<Approval>, a: Approval)
    requires Ranked(s) && BusinessMsp(a.msp) && forall x :: x in s ==> x.msp != a.msp
    ensures Ranked(InsertApproval(s, a))
  {
    if s != [] && MspRank(a.msp) >= MspRank(s[0].msp) {
      var tail := InsertApproval(s[1..], a);
      assert s[0] in s;
      RankIsNameOrder(a.msp, s[0].msp);
      InsertKeepsRanked(s[1..], a);
      InsertApprovalAdds(s[1..], a);
      forall i | 0 <= i < |tail| ensures MspRank(s[0].msp) < MspRank(tail[i].msp) {
        assert tail[i] in tail;
        if tail[i] in s[1..] {
          var k :| 0 <= k < |s[1..]| && s[1..][k] == tail[i];
          assert s[k + 1] == tail[i];
        }
      }
    }
  }

  ghost predicate AllRanked(ps: Proposals) {
    forall id :: id in ps ==> Ranked(ps[id].approvals)
  }

  lemma StepKeepsRanked(w: State, c: Ctx, tx: Tx)
    requires AllRanked(w.proposals)
    ensures AllRanked(Step(w, c, tx).proposals)
  {
    StepIs(w, c, tx);
    if Step(w, c, tx) != w {
      CallerIsBusiness(c);
      if tx.ApproveProposal? {
        ApprovalKeepsRanked(w.proposals, Caller(c).value, tx.proposalId);
      }
    }
  }

  lemma ApprovalKeepsRanked(ps: Proposals, caller: Identity, id: string)
    requires AllRanked(ps) && BusinessMsp(caller.msp) && Approve(ps, caller, id).Some?
    ensures AllRanked(Approve(ps, caller, id).value)
  {
    if forall a :: a in ps[id].approvals ==> a.msp != caller.msp {
      InsertKeepsRanked(ps[id].approvals, Approval(caller.msp, caller.clientHash));
    }
  }

  /** In every reachable state the approvals of a proposal are listed by strictly rising organisation name. */
  lemma {:induction false} ApprovalsInNameOrder(txs: Script)
    ensures AllRanked(Run(GENESIS, txs).proposals)
    ensures forall id :: id in Run(GENESIS, txs).proposals ==> InNameOrder(Run(GENESIS, txs).proposals[id].approvals)
  {
    if txs != [] {
      var front, last := txs[..|txs| - 1], txs[|txs| - 1];
      ApprovalsInNameOrder(front);
      StepKeepsRanked(Run(GENESIS, front), last.0, last.1);
    }
    forall id | id in Run(GENESIS, txs).proposals ensures InNameOrder(Run(GENESIS, txs).proposals[id].approvals) {
      RankedInNameOrder(Run(GENESIS, txs).proposals[id].approvals);
    }
  }

  lemma RankedInNameOrder(s: seq<Approval>)
    requires Ranked(s)
    ensures InNameOrder(s)
  {
    forall i, j | 0 <= i < j < |s| ensures LexLess(MspName(s[i].msp), MspName(s[j].msp)) {
      RankIsNameOrder(s[i].msp, s[j].msp);
    }
  }
}
