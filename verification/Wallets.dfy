/** Wallet registration and the role protocol over three linked tables. */
module Wallets {
  import opened Values
  import opened Events

  datatype RoleStatus = ConsumerOnly | Pending | Active | Revoked

  datatype Wallet = Wallet(
    enabled: bool, org: string, msp: Option<Msp>, role: Role, status: RoleStatus,
    alias: string, clientHash: string, pendingRequest: string)

  datatype Decision = Undecided | Approved | Rejected | Superseded

  datatype RoleRequest = RoleRequest(
    wallet: string, role: Role, org: string, decision: Decision, decidedBy: Option<Msp>, reason: string)

  /** Wallets by address, addresses by certificate hash, requests by id. */
  datatype Registry = Registry(
    wallets: map<string, Wallet>, clients: map<string, string>, requests: map<string, RoleRequest>)

  const EMPTY := Registry(map[], map[], map[])

  function PublicRoleOrg(r: Role): Option<string> {
    match r
    case Farmer => Some("farmer-org")
    case Collector => Some("courier-org")
    case Distributor => Some("courier-org")
    case Retailer => Some("courier-org")
    case _ => None
  }

  function RestrictedRoleOrg(r: Role): Option<string> {
    match r
    case Mill => Some("maker-org")
    case Laboratory => Some("maker-org")
    case Bottler => Some("maker-org")
    case Processor => Some("recycler-org")
    case _ => None
  }

  function RoleOrg(r: Role): Option<string> {
    if PublicRoleOrg(r).Some? then PublicRoleOrg(r) else RestrictedRoleOrg(r)
  }

  /** The certificate is bound to a wallet whose active role it matches. */
  predicate ActiveBinding(reg: Registry, id: Identity) {
    && id.wallet != "" && id.wallet in reg.wallets
    && var w := reg.wallets[id.wallet];
       w.enabled && w.status == Active && w.msp == Some(id.msp) && w.role == id.role && w.clientHash == id.clientHash
  }

  predicate MayAdminister(reg: Registry, id: Identity) {
    id.role == OrgAdmin && (id.wallet == "" || ActiveBinding(reg, id))
  }

  /** `derived` is the address that the submitted public key yields, if it is well formed. */
  function Register(reg: Registry, address: string, derived: Option<string>, name: string): Option<Registry> {
    if name == "" || |name| > 120 || derived != Some(address) || address in reg.wallets then None
    else Some(reg.(wallets := reg.wallets[address := Wallet(true, "", None, Consumer, ConsumerOnly, "", "", "")]))
  }

  function RequestId(txId: string): string {
    "WRR-" + txId
  }

  function RequestRole(reg: Registry, address: string, role: Role, txId: string): Option<Registry> {
    if PublicRoleOrg(role).None? || address !in reg.wallets then None
    else
      var w := reg.wallets[address];
      if !w.enabled || w.status == Active then None
      else if exists r | r in reg.requests :: reg.requests[r].wallet == address && reg.requests[r].decision == Undecided
      then None
      else
        Some(reg.(
          wallets := reg.wallets[address := w.(status := Pending, pendingRequest := RequestId(txId))],
          requests := reg.requests[RequestId(txId) :=
                                   RoleRequest(address, role, PublicRoleOrg(role).value, Undecided, None, "")]))
  }

  /** Every other open request of the wallet is closed. */
  function CloseOthers(requests: map<string, RoleRequest>, address: string, except: string,
                       decider: Msp): map<string, RoleRequest> {
    map r | r in requests ::
      if requests[r].wallet == address && requests[r].decision == Undecided && r != except
      then requests[r].(decision := Superseded, decidedBy := Some(decider), reason := SUPERSEDED_REASON)
      else requests[r]
  }

  const SUPERSEDED_REASON := "superseded by another approved organizational role"

  /** What both approval and the administrator's grant do; `requestId` is "" for a grant. */
  function Grant(reg: Registry, admin: Identity, org: Option<string>, address: string, role: Role,
                 clientHash: string, alias: string, requestId: string): Option<Registry> {
    var roleOrg := if role == OrgAdmin then org else RoleOrg(role);
    if org.None? || (role == OrgAdmin && admin.wallet != "") || roleOrg != org || clientHash == "" || alias == ""
        then None
    else if address !in reg.wallets || !reg.wallets[address].enabled then None
    else
      var w := reg.wallets[address];
      if w.status == Active && w.clientHash != clientHash then None
      else if clientHash in reg.clients && reg.clients[clientHash] != address then None
      else
        Some(Registry(
          reg.wallets[address := Wallet(true, org.value, Some(admin.msp), role, Active, alias, clientHash, "")],
          reg.clients[clientHash := address],
          CloseOthers(reg.requests, address, requestId, admin.msp)))
  }

  function GrantRole(reg: Registry, admin: Identity, org: Option<string>, address: string, role: Role,
                     clientHash: string, alias: string): Option<Registry> {
    if !MayAdminister(reg, admin) then None else Grant(reg, admin, org, address, role, clientHash, alias, "")
  }

  function ApproveRequest(reg: Registry, admin: Identity, org: Option<string>, requestId: string,
                          clientHash: string, alias: string): Option<Registry> {
    if !MayAdminister(reg, admin) || requestId !in reg.requests then None
    else
      var q := reg.requests[requestId];
      if q.decision != Undecided || org != Some(q.org) then None
      else
        var granted := Grant(reg, admin, org, q.wallet, q.role, clientHash, alias, requestId);
        if granted.None? then None
        else Some(granted.value.(requests := granted.value.requests[
          requestId := q.(decision := Approved, decidedBy := Some(admin.msp), reason := "approved")]))
  }

  function RejectRequest(reg: Registry, admin: Identity, org: Option<string>, requestId: string,
                         reason: string): Option<Registry> {
    if !MayAdminister(reg, admin) || requestId !in reg.requests then None
    else
      var q := reg.requests[requestId];
      if q.decision != Undecided || org != Some(q.org) || q.wallet !in reg.wallets then None
      else
        var w := reg.wallets[q.wallet];
        Some(reg.(
          wallets := reg.wallets[q.wallet := w.(role := Consumer, status := ConsumerOnly, pendingRequest := "")],
          requests := reg.requests[requestId :=
                                   q.(decision := Rejected, decidedBy := Some(admin.msp), reason := reason)]))
  }

  function RevokeRole(reg: Registry, admin: Identity, address: string): Option<Registry> {
    if !MayAdminister(reg, admin) || address !in reg.wallets then None
    else
      var w := reg.wallets[address];
      if w.status != Active || w.msp != Some(admin.msp) then None
      else
        Some(reg.(
          wallets := reg.wallets[address := w.(status := Revoked)],
          clients := if w.clientHash != "" then reg.clients - {w.clientHash} else reg.clients))
  }

  // -------------------------------------------------------------------- invariant

  /** The client index holds exactly the certificate hashes of wallets with an active role. */
  ghost predicate ClientsMatch(reg: Registry) {
    && (forall h :: h in reg.clients ==>
          && reg.clients[h] in reg.wallets && reg.wallets[reg.clients[h]].status == Active
          && reg.wallets[reg.clients[h]].clientHash == h)
    && (forall a :: a in reg.wallets && reg.wallets[a].status == Active ==>
          && reg.wallets[a].clientHash in reg.clients && reg.clients[reg.wallets[a].clientHash] == a
          && reg.wallets[a].clientHash != "")
  }

  /** A wallet is pending exactly when it has an open request, which is the one it names. */
  ghost predicate RequestsMatch(reg: Registry) {
    && (forall r :: r in reg.requests && reg.requests[r].decision == Undecided ==>
          && reg.requests[r].wallet in reg.wallets && reg.wallets[reg.requests[r].wallet].status == Pending
          && reg.wallets[reg.requests[r].wallet].pendingRequest == r)
    && (forall a :: a in reg.wallets && reg.wallets[a].status == Pending ==>
          && reg.wallets[a].pendingRequest in reg.requests
          && reg.requests[reg.wallets[a].pendingRequest].wallet == a
          && reg.requests[reg.wallets[a].pendingRequest].decision == Undecided)
    && (forall a :: a in reg.wallets && reg.wallets[a].status != Pending ==> reg.wallets[a].pendingRequest == "")
    && (forall r :: r in reg.requests ==> r != "")
  }

  ghost predicate RegistryInv(reg: Registry) {
    ClientsMatch(reg) && RequestsMatch(reg) && forall a :: a in reg.wallets ==> reg.wallets[a].enabled
  }

  /** Wallets never disappear and a decided request is never touched again. */
  ghost predicate DecisionsKept(reg: Registry, next: Registry) {
    && (forall a :: a in reg.wallets ==> a in next.wallets)
    && (forall r :: r in reg.requests ==> r in next.requests)
    && (forall r :: r in reg.requests && reg.requests[r].decision != Undecided ==> next.requests[r] == reg.requests[r])
  }

  /** The wallet has an active role under the certificate. */
  ghost predicate ActiveAs(reg: Registry, a: string, h: string) {
    a in reg.wallets && reg.wallets[a].status == Active && reg.wallets[a].clientHash == h
  }

  /** The request is open and of the wallet. */
  ghost predicate OpenFor(reg: Registry, r: string, a: string) {
    r in reg.requests && reg.requests[r].wallet == a && reg.requests[r].decision == Undecided
  }

  lemma RegisterKeeps(reg: Registry, address: string, derived: Option<string>, name: string)
    requires RegistryInv(reg) && Register(reg, address, derived, name).Some?
    ensures var next := Register(reg, address, derived, name).value;
            && RegistryInv(next) && DecisionsKept(reg, next)
            && next.clients == reg.clients && next.requests == reg.requests
            && address !in reg.wallets && (forall h :: !ActiveAs(next, address, h))
               && (forall r :: !OpenFor(next, r, address))
  {
  }

  lemma RequestRoleKeeps(reg: Registry, address: string, role: Role, txId: string)
    requires RegistryInv(reg) && RequestRole(reg, address, role, txId).Some?
    requires RequestId(txId) !in reg.requests
    ensures var next := RequestRole(reg, address, role, txId).value;
            && RegistryInv(next) && DecisionsKept(reg, next)
            && (forall r :: OpenFor(next, r, address) <==> r == RequestId(txId))
            && next.requests[RequestId(txId)].role == role
  {
  }

  lemma GrantKeepsClients(reg: Registry, admin: Identity, org: Option<string>, address: string, role: Role,
                          clientHash: string, alias: string, requestId: string)
    requires RegistryInv(reg) && Grant(reg, admin, org, address, role, clientHash, alias, requestId).Some?
    ensures var next := Grant(reg, admin, org, address, role, clientHash, alias, requestId).value;
            ClientsMatch(next) && DecisionsKept(reg, next) && forall a :: a in next.wallets ==> next.wallets[a].enabled
  {
  }

  lemma ClosedWalletMatches(reg: Registry, next: Registry, address: string, w: Wallet)
    requires RequestsMatch(reg) && next.wallets == reg.wallets[address := w] && w.status != Pending
    requires w.pendingRequest == ""
    requires next.requests.Keys == reg.requests.Keys
    requires forall r :: r in next.requests && next.requests[r].decision == Undecided ==>
            next.requests[r].wallet != address
    requires forall r | r in next.requests ::
               next.requests[r].decision == Undecided || reg.requests[r].wallet != address ==>
                 next.requests[r] == reg.requests[r]
    ensures RequestsMatch(next)
  {
  }

  /** After a grant no request of the wallet is open but the excepted one. */
  lemma GrantKeepsRequests(reg: Registry, admin: Identity, org: Option<string>, address: string, role: Role,
                           clientHash: string, alias: string, requestId: string, decided: RoleRequest)
    requires RegistryInv(reg) && Grant(reg, admin, org, address, role, clientHash, alias, requestId).Some?
    requires decided.decision != Undecided
    requires requestId in reg.requests ==>
            reg.requests[requestId].wallet == address && reg.requests[requestId].decision == Undecided
    ensures var next := Grant(reg, admin, org, address, role, clientHash, alias, requestId).value;
            RequestsMatch(if requestId in reg.requests then next.(requests := next.requests[requestId := decided])
                          else next)
  {
    var granted := Grant(reg, admin, org, address, role, clientHash, alias, requestId).value;
    var decides := requestId in reg.requests;
    var next := if decides then granted.(requests := granted.requests[requestId := decided]) else granted;
    ClosedWalletMatches(reg, next, address, granted.wallets[address]);
  }

  lemma GrantRoleKeeps(reg: Registry, admin: Identity, org: Option<string>, address: string, role: Role,
                       clientHash: string, alias: string)
    requires RegistryInv(reg) && GrantRole(reg, admin, org, address, role, clientHash, alias).Some?
    ensures var next := GrantRole(reg, admin, org, address, role, clientHash, alias).value;
            && RegistryInv(next) && DecisionsKept(reg, next)
            && ActiveAs(next, address, clientHash) && (forall r :: !OpenFor(next, r, address))
  {
    GrantKeepsClients(reg, admin, org, address, role, clientHash, alias, "");
    GrantKeepsRequests(reg, admin, org, address, role, clientHash, alias, "",
                       RoleRequest("", role, "", Approved, None, ""));
  }

  lemma ApprovalOnlyDecides(reg: Registry, granted: Registry, requestId: string, decided: RoleRequest)
    requires DecisionsKept(reg, granted) && ClientsMatch(granted)
    requires requestId in reg.requests && reg.requests[requestId].decision == Undecided
    ensures var next := granted.(requests := granted.requests[requestId := decided]);
            ClientsMatch(next) && DecisionsKept(reg, next)
  {
  }

  lemma ApproveRequestKeeps(reg: Registry, admin: Identity, org: Option<string>, requestId: string, clientHash: string,
                            alias: string)
    requires RegistryInv(reg) && ApproveRequest(reg, admin, org, requestId, clientHash, alias).Some?
    ensures var next, q := ApproveRequest(reg, admin, org, requestId, clientHash, alias).value, reg.requests[requestId];
            && RegistryInv(next) && DecisionsKept(reg, next)
            && ActiveAs(next, q.wallet, clientHash) && (forall r :: !OpenFor(next, r, q.wallet))
            && next.requests[requestId].decision == Approved
  {
    var q := reg.requests[requestId];
    GrantKeepsClients(reg, admin, org, q.wallet, q.role, clientHash, alias, requestId);
    var decided := q.(decision := Approved, decidedBy := Some(admin.msp), reason := "approved");
    GrantKeepsRequests(reg, admin, org, q.wallet, q.role, clientHash, alias, requestId, decided);
    var granted := Grant(reg, admin, org, q.wallet, q.role, clientHash, alias, requestId).value;
    ApprovalOnlyDecides(reg, granted, requestId, decided);
  }

  lemma RejectKeeps(reg: Registry, admin: Identity, org: Option<string>, requestId: string, reason: string)
    requires RegistryInv(reg) && RejectRequest(reg, admin, org, requestId, reason).Some?
    ensures var next, q := RejectRequest(reg, admin, org, requestId, reason).value, reg.requests[requestId];
            && RegistryInv(next) && DecisionsKept(reg, next)
            && next.clients == reg.clients && (forall r :: !OpenFor(next, r, q.wallet))
            && next.requests[requestId].decision == Rejected
  {
  }

  lemma RevokeKeeps(reg: Registry, admin: Identity, address: string)
    requires RegistryInv(reg) && RevokeRole(reg, admin, address).Some?
    ensures var next := RevokeRole(reg, admin, address).value;
            && RegistryInv(next) && DecisionsKept(reg, next)
            && reg.wallets[address].clientHash !in next.clients && (forall h :: !ActiveAs(next, address, h))
            && next.requests == reg.requests
  {
  }

  // ------------------------------------------------- what the operations mean together

  /** After an approval the certificate it names may act for the wallet in the requested role, and no
      other certificate or role may; every other wallet's certificates act as before. */
  lemma ApprovalBinds(reg: Registry, admin: Identity, org: Option<string>, requestId: string, clientHash: string,
                      alias: string, id: Identity)
    requires RegistryInv(reg) && ApproveRequest(reg, admin, org, requestId, clientHash, alias).Some?
    ensures var next, q := ApproveRequest(reg, admin, org, requestId, clientHash, alias).value, reg.requests[requestId];
            ActiveBinding(next, id) <==>
            if id.wallet == q.wallet
                then q.wallet != "" && id.msp == admin.msp && id.role == q.role && id.clientHash == clientHash
            else ActiveBinding(reg, id)
  {
  }

  /** A revocation takes back what a grant to a wallet without an active role gave: no certificate acts
      for the wallet, the certificate index is the one before the grant, and other wallets are untouched. */
  lemma RevokeUndoesGrant(reg: Registry, admin: Identity, org: Option<string>, address: string, role: Role,
                          clientHash: string, alias: string,
                          revoker: Identity)
    requires RegistryInv(reg) && GrantRole(reg, admin, org, address, role, clientHash, alias).Some?
    requires reg.wallets[address].status != Active
    requires var granted := GrantRole(reg, admin, org, address, role, clientHash, alias).value;
            RevokeRole(granted, revoker, address).Some?
    ensures var granted := GrantRole(reg, admin, org, address, role, clientHash, alias).value;
            var next := RevokeRole(granted, revoker, address).value;
            && revoker.msp == admin.msp
            && next.clients == reg.clients
            && (forall a :: a in reg.wallets && a != address ==> next.wallets[a] == reg.wallets[a])
            && next.wallets[address].status == Revoked
  {
    assert clientHash !in reg.clients;
  }
}
