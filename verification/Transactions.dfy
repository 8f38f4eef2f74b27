/** The transactions of the contract, as methods that check, then write. */
module Transactions {
  import opened Values
  import opened Events
  import opened EventStore
  import opened Wallets
  import opened Tokens
  import opened Governance
  import opened Contract
  import World

  /** Wallets, the client-hash index and the role requests. */
  class RoleTable {
    var wallets: map<string, Wallet>
    var clients: map<string, string>
    var requests: map<string, RoleRequest>

    function State(): Registry
      reads this
    {
      Registry(wallets, clients, requests)
    }

    constructor ()
      ensures State() == Wallets.EMPTY
    {
      wallets, clients, requests := map[], map[], map[];
    }

    method RegisterWallet(address: string, derived: Option<string>, name: string) returns (ok: bool)
      modifies this
      ensures var next := Register(old(State()), address, derived, name);
              ok == next.Some? && State() == if ok then next.value else old(State())
    {
      if name == "" || |name| > 120 || derived != Some(address) || address in wallets {
        return false;
      }
      wallets := wallets[address := Wallet(true, "", None, Consumer, ConsumerOnly, "", "", "")];
      return true;
    }

    /** Scans the requests of a wallet for one that is open. */
    method HasOpenRequest(address: string) returns (open: bool)
      ensures open == exists r :: r in requests && requests[r].wallet == address && requests[r].decision == Undecided
    {
      var ids := requests.Keys;
      while ids != {}
        invariant ids <= requests.Keys
        invariant forall r :: r in requests.Keys - ids ==>
                !(requests[r].wallet == address && requests[r].decision == Undecided)
        decreases ids
      {
        var id :| id in ids;
        if requests[id].wallet == address && requests[id].decision == Undecided {
          return true;
        }
        ids := ids - {id};
      }
      return false;
    }

    method RequestWalletRole(address: string, role: Role, txId: string) returns (ok: bool)
      modifies this
      ensures var next := RequestRole(old(State()), address, role, txId);
              ok == next.Some? && State() == if ok then next.value else old(State())
    {
      var org := PublicRoleOrg(role);
      if org.None? || address !in wallets {
        return false;
      }
      var w := wallets[address];
      if !w.enabled || w.status == Active {
        return false;
      }
      var open := HasOpenRequest(address);
      if open {
        return false;
      }
      requests := requests[RequestId(txId) := RoleRequest(address, role, org.value, Undecided, None, "")];
      wallets := wallets[address := w.(status := Pending, pendingRequest := RequestId(txId))];
      return true;
    }

    /** Closes the other open requests of a wallet, one row at a time. */
    method CloseOtherRequests(address: string, except: string, decider: Msp)
      modifies this
      ensures State() == old(State()).(requests := CloseOthers(old(requests), address, except, decider))
    {
      var ids := requests.Keys;
      while ids != {}
        invariant requests.Keys == old(requests).Keys && ids <= requests.Keys
        invariant wallets == old(wallets) && clients == old(clients)
        invariant forall r :: r in requests ==>
                    requests[r] == if r in ids then old(requests)[r]
                        else CloseOthers(old(requests), address, except, decider)[r]
        decreases ids
      {
        var id :| id in ids;
        var q := requests[id];
        if q.wallet == address && q.decision == Undecided && id != except {
          requests := requests[id :=
                               q.(decision := Superseded, decidedBy := Some(decider), reason := SUPERSEDED_REASON)];
        }
        ids := ids - {id};
      }
    }

    method GrantWallet(admin: Identity, org: Option<string>, address: string, role: Role,
                       clientHash: string, alias: string, requestId: string) returns (ok: bool)
      modifies this
      ensures var next := Grant(old(State()), admin, org, address, role, clientHash, alias, requestId);
              ok == next.Some? && State() == if ok then next.value else old(State())
    {
      if org.None? || (role == OrgAdmin && admin.wallet != "") {
        return false;
      }
      if role != OrgAdmin && RoleOrg(role) != org {
        return false;
      }
      if clientHash == "" || alias == "" || address !in wallets {
        return false;
      }
      var w := wallets[address];
      if !w.enabled || (w.status == Active && w.clientHash != clientHash) {
        return false;
      }
      if clientHash in clients && clients[clientHash] != address {
        return false;
      }
      w := w.(org := org.value, msp := Some(admin.msp), role := role, status := Active);
      w := w.(alias := alias, clientHash := clientHash, pendingRequest := "");
      wallets := wallets[address := w];
      CloseOtherRequests(address, requestId, admin.msp);
      clients := clients[clientHash := address];
      return true;
    }

    method GrantWalletRole(admin: Identity, org: Option<string>, address: string, role: Role,
                           clientHash: string, alias: string) returns (ok: bool)
      modifies this
      ensures var next := GrantRole(old(State()), admin, org, address, role, clientHash, alias);
              ok == next.Some? && State() == if ok then next.value else old(State())
    {
      if !MayAdminister(State(), admin) {
        return false;
      }
      ok := GrantWallet(admin, org, address, role, clientHash, alias, "");
    }

    method ApproveRoleRequest(admin: Identity, org: Option<string>, requestId: string,
                              clientHash: string, alias: string) returns (ok: bool)
      modifies this
      ensures var next := ApproveRequest(old(State()), admin, org, requestId, clientHash, alias);
              ok == next.Some? && State() == if ok then next.value else old(State())
    {
      if !MayAdminister(State(), admin) || requestId !in requests {
        return false;
      }
      var q := requests[requestId];
      if q.decision != Undecided || org != Some(q.org) {
        return false;
      }
      ok := GrantWallet(admin, org, q.wallet, q.role, clientHash, alias, requestId);
      if ok {
        requests := requests[requestId := q.(decision := Approved, decidedBy := Some(admin.msp), reason := "approved")];
      }
    }

    method RejectRoleRequest(admin: Identity, org: Option<string>, requestId: string, reason: string) returns (ok: bool)
      modifies this
      ensures var next := RejectRequest(old(State()), admin, org, requestId, reason);
              ok == next.Some? && State() == if ok then next.value else old(State())
    {
      if !MayAdminister(State(), admin) || requestId !in requests {
        return false;
      }
      var q := requests[requestId];
      if q.decision != Undecided || org != Some(q.org) || q.wallet !in wallets {
        return false;
      }
      requests := requests[requestId := q.(decision := Rejected, decidedBy := Some(admin.msp), reason := reason)];
      wallets := wallets[q.wallet :=
                         wallets[q.wallet].(role := Consumer, status := ConsumerOnly, pendingRequest := "")];
      return true;
    }

    method RevokeWalletRole(admin: Identity, address: string) returns (ok: bool)
      modifies this
      ensures var next := RevokeRole(old(State()), admin, address);
              ok == next.Some? && State() == if ok then next.value else old(State())
    {
      if !MayAdminister(State(), admin) || address !in wallets {
        return false;
      }
      var w := wallets[address];
      if w.status != Active || w.msp != Some(admin.msp) {
        return false;
      }
      if w.clientHash != "" {
        clients := clients - {w.clientHash};
      }
      wallets := wallets[address := w.(status := Revoked)];
      return true;
    }
  }

  class OliveChainContract {
    const table: EventTable
    const roles: RoleTable
    var book: Book
    var proposals: Proposals
    var used: set<string>

    ghost function State(): World.State
      reads this, table, roles
    {
      World.State(table.State(), roles.State(), book, proposals, used)
    }

    ghost predicate Valid()
      reads this, table, roles
    {
      World.Inv(State())
    }

    constructor ()
      ensures State() == World.GENESIS && Valid()
      ensures fresh(table) && fresh(roles)
    {
      table := new EventTable();
      roles := new RoleTable();
      book, proposals, used := EMPTY_BOOK, map[], {};
      new;
      World.GenesisInv();
    }

    /** Credits the wallets that an accepted event rewards, from the events the table shows. */
    method ApplyWalletIncentives(session: TokenSession, tx: string, e: Event)
      requires table.Indexed()
      modifies session
      ensures session.Session() == ApplyIncentives(old(session.Session()), tx, roles.State(), table.State(), e)
    {
      if e.actorWallet == "" || e.actorWallet !in roles.wallets || roles.wallets[e.actorWallet].status != Active {
        return;
      }
      session.AddBonuses(tx, e);
      if e.etype == EnvAccounting {
        var rec := table.ReconcileResidue(e.subject);
        if rec.balanced {
          session.Adjust(tx, e.actorWallet, 5, e.subject, e.id, TrustCircular(e.subject));
          MintEcoForLot(session, tx, e.subject, e.id);
        }
      }
    }

    /** The last origin batch and the recovered energy of a lot. */
    method LotSummary(lot: string) returns (origin: string, energy: real)
      requires table.Indexed()
      ensures origin == LastOrigin(Listed(table.State(), OfSubject(lot), false))
      ensures energy == Energy(Listed(table.State(), OfSubject(lot), false))
    {
      var listed := table.List(OfSubject(lot), false);
      origin, energy := "", 0.0;
      for i := 0 to |listed|
        invariant origin == LastOrigin(listed[..i]) && energy == Energy(listed[..i])
      {
        assert listed[..i + 1][..i] == listed[..i];
        var e := listed[i];
        if e.etype == ResidueGeneration {
          origin := AsString(Field(e.payload, "origin_batch"));
        }
        if e.etype == UsefulOutput && AsString(Field(e.payload, "output_type")) == "bioenergy_kwh" {
          energy := energy + AsFloat(Field(e.payload, "quantity"));
        }
      }
      assert listed[..|listed|] == listed;
    }

    /** The wallet of the last milling event of a batch. */
    method MakerWallet(batch: string) returns (maker: string)
      requires table.Indexed()
      ensures maker == LastMaker(Listed(table.State(), OfSubject(batch), false))
    {
      var listed := table.List(OfSubject(batch), false);
      maker := "";
      for i := 0 to |listed|
        invariant maker == LastMaker(listed[..i])
      {
        assert listed[..i + 1][..i] == listed[..i];
        if listed[i].etype == Milling && listed[i].actorWallet != "" {
          maker := listed[i].actorWallet;
        }
      }
      assert listed[..|listed|] == listed;
    }

    /** One ECO credit for a finished lot, to the last maker of its origin batch. */
    method MintEcoForLot(session: TokenSession, tx: string, lot: string, event: string)
      requires table.Indexed()
      modifies session
      ensures session.Session() == MintEco(old(session.Session()), tx, table.State(), lot, event)
    {
      var seen := if session.own then session.written else session.committed;
      if EcoMint(lot) in seen.markers {
        return;
      }
      var origin, energy := LotSummary(lot);
      if origin == "" || energy <= 0.0 {
        return;
      }
      var maker := MakerWallet(origin);
      var amount := EcoAmount(energy);
      if maker == "" || amount <= 0 {
        return;
      }
      session.CreditEcoToken(tx, maker, amount, lot, event, origin);
      session.Mark(EcoMint(lot));
    }

    /** The gate of an event write. */
    method CheckEvent(t: EventType, subject: string, payload: Payload, id: string) returns (ok: bool)
      requires table.Indexed()
      ensures ok <==> subject != "" && PayloadAccepted(t, payload) && id !in table.events
                      && World.TransitionAccepted(table.State(), t, subject, payload)
    {
      if subject == "" || !PayloadAccepted(t, payload) {
        return false;
      }
      ok := table.ValidateTransition(t, subject, payload);
      ok := ok && id !in table.events;
    }

    /** The event with its indexes, and the incentives. */
    method Persist(c: Ctx, e: Event)
      requires table.Indexed() && e.id !in table.events
      modifies this`book, table
      ensures table.State() == Put(old(table.State()), e)
      ensures book == ApplyIncentives(Begin(old(book), c.readsOwnWrites), c.txId, roles.State(),
                                      if c.readsOwnWrites then table.State() else old(table.State()), e).written
    {
      var session := new TokenSession(book, c.readsOwnWrites);
      if !c.readsOwnWrites {
        ApplyWalletIncentives(session, c.txId, e);
      }
      PutKeepsTables(table.State(), e);
      table.Write(e);
      if c.readsOwnWrites {
        ApplyWalletIncentives(session, c.txId, e);
      }
      book := session.written;
    }

    method WriteEvent(c: Ctx, actor: Identity, t: EventType, subject: string, payload: Payload,
                      eventId: string) returns (ok: bool)
      requires table.Indexed()
      modifies this`book, table
      ensures var next := World.WriteEvent(old(State()), c, actor, t, subject, payload, eventId);
              ok == next.Some? && State() == if ok then next.value else old(State())
    {
      ghost var before := State();
      var e := World.NewEvent(c, actor, t, subject, payload, eventId);
      ok := CheckEvent(t, subject, payload, e.id);
      if ok {
        Persist(c, e);
        assert World.WriteEvent(before, c, actor, t, subject, payload, eventId).value
            == before.(store := table.State(), book := book);
      }
    }

    method SubmitEvent(c: Ctx, caller: Identity, eventId: string, t: EventType, subject: string,
                       payload: Payload) returns (ok: bool)
      requires table.Indexed()
      modifies this`book, table
      ensures var next := World.Submit(old(State()), c, caller, eventId, t, subject, payload);
              ok == next.Some? && State() == if ok then next.value else old(State())
    {
      if t == Correction || Governed(t) || caller.role !in Permitted(t) {
        return false;
      }
      if !(t == ConsumerVerification && caller.role == Consumer && caller.wallet == "")
          && !ActiveBinding(roles.State(), caller) {
        return false;
      }
      ok := WriteEvent(c, caller, t, subject, payload, eventId);
    }

    /** A rejected transaction writes nothing, so the pointer may be checked before the event is written. */
    method CorrectEvent(c: Ctx, caller: Identity, eventId: string, target: string, reason: string,
                        patch: Payload) returns (ok: bool)
      requires table.Indexed()
      modifies this`book, table
      ensures var next := World.Correct(old(State()), c, caller, eventId, target, reason, patch);
              ok == next.Some? && State() == if ok then next.value else old(State())
    {
      if !ActiveBinding(roles.State(), caller) || target !in table.events {
        return false;
      }
      var e := table.events[target];
      if e.actorMsp != caller.msp || e.actorRole != caller.role || target in table.supersede {
        return false;
      }
      ok := WriteEvent(c, caller, Correction, e.subject, World.CorrectionPayload(target, reason, patch), eventId);
      if ok {
        table.PutSupersede(target, World.EventId(c, eventId));
      }
    }

    /** Distinct business MSPs among the approvals. */
    method CountApprovers(approvals: seq<Approval>) returns (n: nat)
      ensures n == |Approvers(approvals)|
    {
      var unique: set<Msp> := {};
      for i := 0 to |approvals|
        invariant unique == Approvers(approvals[..i])
      {
        assert approvals[..i + 1] == approvals[..i] + [approvals[i]];
        if BusinessMsp(approvals[i].msp) {
          unique := unique + {approvals[i].msp};
        }
      }
      assert approvals[..|approvals|] == approvals;
      n := |unique|;
    }

    method ProposeGovernanceEvent(caller: Identity, id: string, t: EventType, subject: string,
                                  payload: Payload) returns (ok: bool)
      modifies this`proposals
      ensures ok == Propose(old(proposals), caller, id, t, subject, payload).Some?
      ensures proposals == if ok then Propose(old(proposals), caller, id, t, subject, payload).value else old(proposals)
    {
      var accepted := PayloadAccepted(t, payload);
      if caller.role != OrgAdmin || !Governed(t) || id == "" || id in proposals || !accepted {
        return false;
      }
      var first := Approval(caller.msp, caller.clientHash);
      proposals := proposals[id := Proposal(t, subject, payload, caller.msp, [first], None)];
      return true;
    }

    method ApproveGovernanceProposal(caller: Identity, id: string) returns (ok: bool)
      modifies this`proposals
      ensures ok == Approve(old(proposals), caller, id).Some?
      ensures proposals == if ok then Approve(old(proposals), caller, id).value else old(proposals)
    {
      if caller.role != OrgAdmin || id !in proposals || proposals[id].finalEvent.Some? {
        return false;
      }
      var p := proposals[id];
      for i := 0 to |p.approvals|
        invariant forall k :: 0 <= k < i ==> p.approvals[k].msp != caller.msp
      {
        if p.approvals[i].msp == caller.msp {
          return true;
        }
      }
      p := p.(approvals := InsertApproval(p.approvals, Approval(caller.msp, caller.clientHash)));
      proposals := proposals[id := p];
      return true;
    }

    method CheckFinal(p: Proposal) returns (ok: bool)
      requires table.Indexed()
      ensures ok == World.FinalCheck(table.State(), p)
    {
      match p.etype {
        case RewardIssued => ok := table.ValidateReward(p.payload);
        case ReviewFlag => ok := AsString(Field(p.payload, "subject_event")) in table.events;
        case ReviewResolution =>
          var flag := AsString(Field(p.payload, "flag_event"));
          ok := flag in table.events && table.events[flag].etype == ReviewFlag;
        case _ => ok := true;
      }
    }

    /** Everything finalization checks before it writes. */
    method MayFinalize(caller: Identity, id: string) returns (ok: bool)
      requires table.Indexed()
      ensures ok <==> caller.role == OrgAdmin && id in proposals && proposals[id].finalEvent.None?
                      && |Approvers(proposals[id].approvals)| >= THRESHOLD
                         && World.FinalCheck(table.State(), proposals[id])
    {
      if caller.role != OrgAdmin || id !in proposals || proposals[id].finalEvent.Some? {
        return false;
      }
      var approvers := CountApprovers(proposals[id].approvals);
      if approvers < THRESHOLD {
        return false;
      }
      ok := CheckFinal(proposals[id]);
    }

    method FinalizeGovernanceProposal(c: Ctx, caller: Identity, id: string, eventId: string) returns (ok: bool)
      requires table.Indexed()
      modifies this`book, this`proposals, table
      ensures var next := World.Finalize(old(State()), c, caller, id, eventId);
              ok == next.Some? && State() == if ok then next.value else old(State())
    {
      ok := MayFinalize(caller, id);
      if ok {
        var p := proposals[id];
        ok := WriteEvent(c, World.AuthorityOf(caller), p.etype, p.subject, p.payload, eventId);
        if ok {
          proposals := proposals[id := p.(finalEvent := Some(World.EventId(c, eventId)))];
        }
      }
    }

    method OpenWallet(c: Ctx, address: string, derived: Option<string>, name: string) returns (ok: bool)
      modifies this`book, roles
      ensures var next := World.OpenWallet(old(State()), c, address, derived, name);
              ok == next.Some? && State() == if ok then next.value else old(State())
    {
      ok := roles.RegisterWallet(address, derived, name);
      if ok {
        var session := new TokenSession(book, c.readsOwnWrites);
        var _ := session.EnsureAssets(address);
        book := session.written;
      }
    }

    /** The trust base that comes with a granted role. */
    method InitializeVerifiedTrust(c: Ctx, address: string)
      modifies this`book
      ensures book == InitializeTrust(Begin(old(book), c.readsOwnWrites), c.txId, address).written
    {
      var session := new TokenSession(book, c.readsOwnWrites);
      session.Initialize(c.txId, address);
      book := session.written;
    }

    method ApproveWalletRole(c: Ctx, caller: Identity, requestId: string, clientHash: string,
                             alias: string) returns (ok: bool)
      modifies this`book, roles
      ensures var reg := old(roles.State());
              var next := World.AfterGrant(old(State()), c,
                                           ApproveRequest(reg, caller, c.org, requestId, clientHash, alias),
                                           World.RequestedWallet(reg, requestId));
              ok == next.Some? && State() == if ok then next.value else old(State())
    {
      var address := World.RequestedWallet(roles.State(), requestId);
      ok := roles.ApproveRoleRequest(caller, c.org, requestId, clientHash, alias);
      if ok {
        InitializeVerifiedTrust(c, address);
      }
    }

    method GrantWalletRole(c: Ctx, caller: Identity, address: string, role: Role, clientHash: string,
                           alias: string) returns (ok: bool)
      modifies this, roles
      ensures var next := World.AfterGrant(old(State()), c,
                                           GrantRole(old(roles.State()), caller, c.org, address, role, clientHash,
                                                     alias), address);
              ok == next.Some? && State() == if ok then next.value else old(State())
    {
      ok := roles.GrantWalletRole(caller, c.org, address, role, clientHash, alias);
      if ok {
        InitializeVerifiedTrust(c, address);
      }
    }

    /** One transaction as the platform runs it: each id commits once, and the caller must hold a role. */
    method Execute(c: Ctx, tx: World.Tx) returns (ok: bool)
      requires Valid()
      modifies this, table, roles
      ensures State() == World.Step(old(State()), c, tx)
      ensures Valid()
    {
      World.StepKeeps(State(), c, tx);
      ok := Commit(c, tx);
    }

    method Commit(c: Ctx, tx: World.Tx) returns (ok: bool)
      requires table.Indexed()
      modifies this, table, roles
      ensures State() == World.Step(old(State()), c, tx)
    {
      if c.txId == "" || c.txId in used {
        return false;
      }
      World.CommittedStep(State(), c, tx);
      ok := Attempt(c, tx);
      if ok {
        used := used + {c.txId};
      }
    }

    method Attempt(c: Ctx, tx: World.Tx) returns (ok: bool)
      requires table.Indexed()
      modifies this, table, roles
      ensures ok == World.Attempt(old(State()), c, tx).Some?
      ensures State() == if ok then World.Attempt(old(State()), c, tx).value else old(State())
    {
      if Caller(c).None? {
        return false;
      }
      ok := Dispatch(c, Caller(c).value, tx);
    }

    method Dispatch(c: Ctx, caller: Identity, tx: World.Tx) returns (ok: bool)
      requires table.Indexed() && Caller(c) == Some(caller)
      modifies this, table, roles
      ensures ok == World.Attempt(old(State()), c, tx).Some?
      ensures State() == if ok then World.Attempt(old(State()), c, tx).value else old(State())
    {
      match tx {
        case SubmitEvent(eventId, t, subject, payload) => ok := SubmitEvent(c, caller, eventId, t, subject, payload);
        case CorrectEvent(eventId, target, reason, patch) =>
            ok := CorrectEvent(c, caller, eventId, target, reason, patch);
        case ProposeEvent(_, _, _, _) => ok := DispatchProposal(c, caller, tx);
        case ApproveProposal(_) => ok := DispatchProposal(c, caller, tx);
        case FinalizeProposal(id, eventId) => ok := FinalizeGovernanceProposal(c, caller, id, eventId);
        case _ => ok := DispatchWallet(c, caller, tx);
      }
    }

    method DispatchProposal(c: Ctx, caller: Identity, tx: World.Tx) returns (ok: bool)
      requires Caller(c) == Some(caller) && (tx.ProposeEvent? || tx.ApproveProposal?)
      modifies this`proposals
      ensures ok == World.Attempt(old(State()), c, tx).Some?
      ensures State() == if ok then World.Attempt(old(State()), c, tx).value else old(State())
    {
      match tx {
        case ProposeEvent(id, t, subject, payload) => ok := ProposeGovernanceEvent(caller, id, t, subject, payload);
        case ApproveProposal(id) => ok := ApproveGovernanceProposal(caller, id);
      }
    }

    method DispatchWallet(c: Ctx, caller: Identity, tx: World.Tx) returns (ok: bool)
      requires Caller(c) == Some(caller)
      requires tx.RegisterWallet? || tx.RequestWalletRole? || tx.ApproveWalletRole? || tx.RejectWalletRole?
              || tx.GrantWalletRole? || tx.RevokeWalletRole?
      modifies this, roles
      ensures ok == World.Attempt(old(State()), c, tx).Some?
      ensures State() == if ok then World.Attempt(old(State()), c, tx).value else old(State())
    {
      match tx {
        case RegisterWallet(address, derived, name) => ok := OpenWallet(c, address, derived, name);
        case RequestWalletRole(address, role) => ok := roles.RequestWalletRole(address, role, c.txId);
        case ApproveWalletRole(requestId, clientHash, alias) =>
            ok := ApproveWalletRole(c, caller, requestId, clientHash, alias);
        case RejectWalletRole(requestId, reason) => ok := roles.RejectRoleRequest(caller, c.org, requestId, reason);
        case GrantWalletRole(address, role, clientHash, alias) =>
            ok := GrantWalletRole(c, caller, address, role, clientHash, alias);
        case RevokeWalletRole(address) => ok := roles.RevokeWalletRole(caller, address);
      }
    }
  }
}
