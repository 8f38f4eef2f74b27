# OliveChain ledger, verified

This project models the OliveChain ledger in Dafny and proves what it promises.

The chaincode side is one state machine. Its state holds the event table with its four
indexes and supersession pointers, the wallet, certificate and request tables, the token
book, and the governance proposals. Eleven transactions act on it: submit and correct an
event; register a wallet; request, approve, reject, grant and revoke a role; propose,
approve and finalize a governed event. `World` defines a transaction as one step on
values and proves by induction over runs what every reachable state satisfies.
`Guarantees`, `Authorship` and `WorkflowRuns` state the results about reachable states outright;
`Acceptance`, `Decisions`, `CorrectionLaws`, `RewardLaws` and `TokenLaws` say exactly when a
transaction is accepted and what it changes, without the functions the machine is defined by.
`Contract` and `Transactions` hold the code in its own form: classes whose methods check,
loop and write, each proved to be the specified step. A subject's status is never stored;
`Workflow`, `Histories` and `EventStore` relate the stored table, the sort and the
recogniser loop.

The service side is modelled around its own components: the status mirror
(`WorkflowMirror`), the hash-chained ledger with its audit, correction walk and reload
(`LocalLedger`), the reward engine (`LocalIncentives`), Base58 and did:key (`Base58`) and
the sliding-window limiter (`RateLimiter`).

`dafny verify dfyconfig.toml` checks everything.

## Files

| file | content |
|---|---|
| `Values.dfy`, `Events.dfy` | payload values, string order, sums; event, role and organisation tables |
| `Workflow.dfy`, `Histories.dfy` | the step recogniser and its languages; inserting into, removing from and appending to a history |
| `WorkflowMirror.dfy` | the service's status model and its agreement with the recogniser |
| `Listing.dfy`, `EventStore.dfy` | sorted listings; event table, indexes, correction chains |
| `MassBalance.dfy` | the reconciliation and its compound bound |
| `Wallets.dfy`, `Tokens.dfy`, `Governance.dfy` | roles, accounts, proposals and rewards as steps on values, with their invariants |
| `World.dfy`, `WorkflowRuns.dfy`, `Guarantees.dfy`, `Authorship.dfy` | the whole machine, its runs, and the results about every reachable state |
| `Acceptance.dfy`, `Decisions.dfy` | exactly which transactions are accepted, what they leave behind, and what revocation stops |
| `CorrectionLaws.dfy`, `RewardLaws.dfy`, `TokenLaws.dfy` | what a correction, a reward and an accepted event do, said on stored events, payload fields and accounts alone |
| `Witnesses.dfy` | histories and runs that reach the exceptional sides of the equivalences |
| `Contract.dfy`, `Transactions.dfy` | the contract as classes, proved against those steps |
| `LocalLedger.dfy`, `LocalIncentives.dfy` | the service's own ledger and reward engine |
| `LocalWrites.dfy`, `LocalCorrections.dfy`, `LocalRewardLaws.dfy` | what that ledger accepts, what it answers for a corrected event, and what it rewards, said on stored entries alone |
| `Base58.dfy`, `RateLimiter.dfy` | the two small exact algorithms |

## Assumptions

- Transactions are atomic and serial. The platform commits no transaction id twice
  (`State.used`). Whether `GetState` sees writes of the same transaction is a parameter of
  every transaction (`Ctx.readsOwnWrites`); no invariant relies on either choice, and
  `Tokens.OliveSurvivesIffOwnReads` and `Tokens.TrustEarned` say where it is visible.
- Identifiers are trimmed. Event types, roles and organisations are enumerations, so unknown
  names are refused before the model begins. A certificate is its organisation, role, wallet
  and certificate hash.
- A transaction's time in seconds, which listings sort by, and its index order key are
  independent values; transaction times need not increase.
- A JSON value is represented by what the two programs read from it: number, text, truth
  value, list or map. Quantities are reals; tokens are whole hundredths.
- SHA-256, Ed25519 and JSON serialisation are abstract functions, and nothing is assumed of them
  in general. `LocalLedger.HeadDeterminesChain` asks of the entries of the two given chains that
  a serialised body ends with a brace and a signature holds none, which canonical JSON objects
  and hexadecimal signatures satisfy, and names a collision where it cannot conclude. The reward
  engine assumes that its authority's signatures verify.
- Both programs read the same strings as numbers.
- Event ids that the service generates are fresh.

## What the proofs show about the code

- A workflow event is checked against the history but listed by its timestamp. It makes its own
  history invalid exactly when an event of another type is listed after it
  (`WorkflowRuns.SubmitKeepsValidIff`, reached in `Witnesses.EarlyHarvestInvalidates`).
  Correcting a workflow event removes it from the recognised history and invalidates it unless
  the history can do without it (`WorkflowRuns.CorrectKeepsValidIff`, reached in
  `Witnesses.CorrectionInvalidates`). The results about runs therefore ask for events in order
  and no correction of workflow events; that condition (`WorkflowRuns.InOrder`) can be checked
  before each transaction.
- The service's mirror reads `accepted` by truthiness, the chaincode by a boolean or the text
  "true". For values the two read differently they name different next steps
  (`WorkflowMirror.MirrorAgrees`, reached in `Witnesses.MirrorDiffers`). On a mixed history the
  mirror reports that the workflow exists, the chaincode that it does not
  (`Witnesses.MixedDiffers`).
- The limiter's queue answers as counting would exactly when the clock never goes back
  (`RateLimiter.CountsIffClockNeverGoesBack`); `RateLimiter.ClockGoingBackOverfills` shows a
  window that ends up with more accepted calls than its limit.
- When reads do not see a transaction's own writes, the trust bonus of a product milestone
  overwrites its OLIVE credit, although the credit stays in the log, and a distribution's four
  points overwrite its one (`Tokens.OliveSurvivesIffOwnReads`, `Tokens.TrustEarned`). A maker that
  accounts for its own lot loses the trust of that event to the payment (`TokenLaws.SubmissionPays`).
- The reconciliation lists unsuperseded events, so a corrected quantity never re-enters it
  (`EventStore.UnsupersededIsEffective`).
- The two-tolerance upper bound on accounted mass needs non-negative custody weights; without
  them the proved bound is three tolerances on either side (`MassBalance.BalancedLotBound`,
  `MassBalance.NegativeWeightExceeds`).

## Model

| member | source | states |
|---|---|---|
| `Workflow.AnalyzeWorkflow` | fabric-network/chaincode/olivechain-domain/workflow.go:106-266 | The two loops compute the specified status of any event list, early returns for mixed and out-of-order histories included |
| `Workflow.DetectFlow` | fabric-network/chaincode/olivechain-domain/workflow.go:129-147 | The flow is that of the first managed event, and the history is mixed exactly when some managed event belongs to the other flow |
| `Workflow.StepTables` | fabric-network/chaincode/olivechain-domain/workflow.go:18-73 | Flow and step index of every event type are its place in the two step lists |
| `Workflow.RecognisesStepLanguages` | fabric-network/chaincode/olivechain-domain/workflow.go:106-266 | Valid if and only if the managed types form a prefix of the seven product steps or of generation custody+ valorization useful_output+ return_or_sale+ env_accounting; complete if and only if they form a whole word |
| `Workflow.ReaderFollowsLinks` | fabric-network/chaincode/olivechain-domain/workflow.go:156-223 | The recogniser breaks off exactly at the first pair of neighbours that may not follow each other, and otherwise stands at the last step |
| `Workflow.NextStepsKeepValid` | fabric-network/chaincode/olivechain-domain/workflow.go:225-266 | Appending an event keeps a valid history valid if and only if the status lists it as next, with the two exceptions of a lot in custody named exactly |
| `Histories.InsertValidIff` | fabric-network/chaincode/olivechain-domain/workflow.go:268-354 | An event that passes the gate but is listed at position j leaves the history valid if and only if everything after j has its own type |
| `Histories.RemoveValidIff` | fabric-network/chaincode/olivechain-domain/workflow.go:92-104 | Dropping one event of a valid history, as a correction does, keeps it valid if and only if it was the last one or its type occurs elsewhere |
| `Histories.AdmittedIsLatest` | fabric-network/chaincode/olivechain-domain/workflow.go:320-353 | What the gate admits lies in the history's own flow and not before any recorded step |
| `Histories.AfterCustody` | fabric-network/chaincode/olivechain-domain/workflow.go:241-251 | After a custody record the gate admits valorization if some record was accepted and another custody record if none was, and nothing else |
| `Histories.AppendKeepsDiscipline` | fabric-network/chaincode/olivechain-domain/workflow.go:156-266 | Appending admitted events keeps every custody record but the last unaccepted, and valorization directly after an accepted one |
| `Histories.StatusNames` | fabric-network/chaincode/olivechain-domain/workflow.go:156-266 | The status of a valid history names its last event and the origin batch of the generation it starts with; a complete product may only be verified by consumers and nothing follows a complete lot |
| `Acceptance.AdmitsExactly` | fabric-network/chaincode/olivechain-domain/workflow.go:268-354 | The gate admits a step if and only if the recorded types followed by it are a prefix of a step language and, after a custody record, it is valorization when some record is accepted and custody when none is |
| `Acceptance.GateExactly` | fabric-network/chaincode/olivechain-domain/workflow.go:268-354 | A transition is accepted if and only if: consumer verification on exactly the seven product steps; otherwise such a continuation, later circular steps with the subject as `residue_id`, and generation naming a batch whose history is at least the first four product steps |
| `WorkflowMirror.DeriveStatus` | olivechain/workflow.py:96-196 | The filter, the flow check and the loop of the mirror compute its specified status, origin batch included, for any printed form of values |
| `WorkflowMirror.DeriveFlow` | olivechain/workflow.py:115-196 | The loop over one flow's events, with its early return, computes the specified report |
| `WorkflowMirror.MirrorAgrees` | olivechain/workflow.py:96-196 | On every event list the mirror reports what the chaincode reports, except that a mixed history counts as started; both origins come from the same generation record; next steps differ if and only if a lot waits in custody and the two programs read its `accepted` values differently |
| `Witnesses.MirrorDiffers` | olivechain/workflow.py:134-157 | A generation and a custody record with `accepted` equal to the text yes reach that exception: the chaincode asks for custody again, the service does not |
| `Witnesses.MixedDiffers` | olivechain/workflow.py:102-107 | A cultivation and a generation on one subject: the service reports it as started, the chaincode does not |
| `WorkflowMirror.BooleansReadAlike` | olivechain/workflow.py:134-157 | Boolean `accepted` values are never read differently, so the exception does not arise |
| `WorkflowMirror.MirrorAllows` | olivechain/workflow.py:208-226 | The service accepts every type the chaincode's gate admits if and only if that one exception does not hold |
| `Guarantees.ServiceAcceptsWhatLedgerAccepts` | olivechain/workflow.py:208-226 | The same over the stored table: a transition accepted there is accepted by the service |
| `Listing.OrderedUnique` | fabric-network/chaincode/olivechain-domain/helpers.go:322-328 | A strictly (timestamp, event id) ordered listing is determined by its set of events |
| `Listing.SortEventsSorts` | fabric-network/chaincode/olivechain-domain/helpers.go:322-328 | Sorting by (timestamp, id) gives that unique listing whatever order the index scan delivered |
| `EventStore.ListingIsFilter` | fabric-network/chaincode/olivechain-domain/helpers.go:292-329 | Listing by subject, type or actor is filtering the list of all events, in the same order, superseded events kept or dropped alike |
| `EventStore.IndexedIdsSelect` | fabric-network/chaincode/olivechain-domain/helpers.go:270-290 | Each index holds exactly the ids of the events with its field value |
| `EventStore.HistoryAfterPut` | fabric-network/chaincode/olivechain-domain/workflow.go:92-104 | Writing an event inserts it at its place in its subject's history and leaves every other history alone |
| `EventStore.HistoryAfterSupersede` | fabric-network/chaincode/olivechain-domain/workflow.go:92-104 | Superseding an event removes exactly that event from its subject's history |
| `EventStore.CorrectKeepsInv` | fabric-network/chaincode/olivechain-domain/contract.go:79-123 | A correction keeps ids, indexes and pointers consistent: one successor per event, one target per correction, pointers forward in commit order |
| `EventStore.EffectiveIsOverlay` | fabric-network/chaincode/olivechain-domain/helpers.go:210-240 | In a consistent table the walk from any event ends without its cycle error at an unsuperseded event, and the payload is the original overlaid with the patches of the whole chain in chain order |
| `EventStore.LatestPatchWins` | fabric-network/chaincode/olivechain-domain/helpers.go:250-256 | Each key of the overlaid payload comes from the latest patch that has it, otherwise from the original |
| `EventStore.ChainsDisjoint` | fabric-network/chaincode/olivechain-domain/contract.go:98-121 | Two different original events never share a correction |
| `EventStore.UnsupersededIsEffective` | fabric-network/chaincode/olivechain-domain/massbalance.go:23-28 | An unsuperseded event is its own effective event, so the reconciliation reads the stored payloads of the events it lists |
| `CorrectionLaws.NewestOfOne` | fabric-network/chaincode/olivechain-domain/contract.go:115-121 | An event that nothing supersedes ends the correction chain of exactly one original |
| `CorrectionLaws.CorrectionLaysPatch` | fabric-network/chaincode/olivechain-domain/contract.go:79-123 | After an accepted correction the effective payload of the original whose chain ends at the target has the submitted value for every key of the submitted patch and its earlier value for every other key; the effective payload of any other original is unchanged |
| `CorrectionLaws.CorrectionHitsOne` | fabric-network/chaincode/olivechain-domain/contract.go:79-123 | There is exactly one original whose effective payload an accepted correction patches |
| `CorrectionLaws.CorrectionStored` | fabric-network/chaincode/olivechain-domain/contract.go:105-109 | The stored correction names its target and reason and holds the submitted patch, and nothing else |
| `Contract.EventTable.Write` | fabric-network/chaincode/olivechain-domain/helpers.go:270-290 | Writes the event and its four index keys and nothing else; under a new id a consistent table stays consistent |
| `Contract.EventTable.List` | fabric-network/chaincode/olivechain-domain/helpers.go:292-329 | Reading an index, dropping superseded events and sorting gives the specified listing |
| `Contract.EventTable.Effective` | fabric-network/chaincode/olivechain-domain/helpers.go:210-240 | The loop over supersession keys computes the specified walk, error case included |
| `Contract.EventTable.WorkflowEvents` | fabric-network/chaincode/olivechain-domain/workflow.go:92-104 | The relevant events of a subject are its history |
| `Contract.EventTable.ValidateTransition` | fabric-network/chaincode/olivechain-domain/workflow.go:268-354 | The gate accepts exactly the specified transitions |
| `Contract.EventTable.CheckOrigin` | fabric-network/chaincode/olivechain-domain/workflow.go:293-318 | A residue lot may start exactly when its batch is in the product flow and has reached milling |
| `WorkflowRuns.SubmitKeepsValidIff` | fabric-network/chaincode/olivechain-domain/workflow.go:268-354 | An accepted workflow event finds a valid history and leaves it valid if and only if every event listed after it has its type |
| `WorkflowRuns.CorrectKeepsValidIff` | fabric-network/chaincode/olivechain-domain/contract.go:79-123 | An accepted correction leaves a valid history valid if and only if its target is no workflow event, the last one, or of a type that occurs again |
| `Witnesses.EarlyHarvestInvalidates` | fabric-network/chaincode/olivechain-domain/contract.go:46-77 | A run from the empty ledger in which an accepted harvest that is older than its cultivation leaves the batch's history invalid |
| `Witnesses.CorrectionInvalidates` | fabric-network/chaincode/olivechain-domain/contract.go:79-123 | A run from the empty ledger in which an accepted correction of a cultivation that has been followed by a harvest leaves the history invalid |
| `WorkflowRuns.StepKeepsLawful` | fabric-network/chaincode/olivechain-domain/workflow.go:268-354 | A transaction in order, accepted or not, keeps every history a disciplined prefix and every lot's batch past milling |
| `WorkflowRuns.RunKeepsLawful` | fabric-network/chaincode/olivechain-domain/workflow.go:293-318 | In every run in order every history is valid with custody discipline, and every residue lot names a batch whose history is valid and has reached milling, as both advance |
| `WorkflowRuns.HistoriesAreWords` | fabric-network/chaincode/olivechain-domain/workflow.go:106-354 | In every state of a run in order each history is a prefix of one of the two step languages, with custody discipline |
| `Wallets.RegisterKeeps` | fabric-network/chaincode/olivechain-domain/wallet.go:85-127 | Registration keeps the three wallet tables consistent; requests and certificates stay as they are, and the new wallet has no active role and no open request |
| `Wallets.RequestRoleKeeps` | fabric-network/chaincode/olivechain-domain/wallet.go:166-213 | A request under a fresh id becomes the wallet's one open request, for the role asked, and the tables stay consistent |
| `Wallets.ApproveRequestKeeps` | fabric-network/chaincode/olivechain-domain/wallet.go:323-358 | Approval keeps the tables consistent: the wallet is active under the named certificate, has no open request, and no request decided before changes |
| `Wallets.GrantRoleKeeps` | fabric-network/chaincode/olivechain-domain/wallet.go:405-496 | A grant by an administrator keeps the tables consistent, makes the wallet active under the certificate and closes every open request of it |
| `Wallets.RejectKeeps` | fabric-network/chaincode/olivechain-domain/wallet.go:360-399 | A rejection keeps the tables consistent, leaves the wallet without an open request and the certificates as they are |
| `Wallets.RevokeKeeps` | fabric-network/chaincode/olivechain-domain/wallet.go:498-531 | A revocation keeps the tables consistent, frees the certificate, leaves the wallet active under none and the requests as they are |
| `Wallets.ApprovalBinds` | fabric-network/chaincode/olivechain-domain/wallet.go:323-358 | After an approval exactly the named certificate, in the requested role of the approving organisation, may act for the wallet; other wallets' certificates act as before |
| `Wallets.RevokeUndoesGrant` | fabric-network/chaincode/olivechain-domain/wallet.go:405-531 | Revoking what was granted to a wallet without an active role restores the certificate index and touches no other wallet; only the granting organisation can do it |
| `Decisions.RegisterExactly` | fabric-network/chaincode/olivechain-domain/wallet.go:85-127 | A registration is accepted if and only if it has a name of 1 to 120 characters, the address its key yields, and a new address |
| `Decisions.RequestExactly` | fabric-network/chaincode/olivechain-domain/wallet.go:166-213 | A request is accepted if and only if it is for one of the four open roles and a registered wallet without active role or open request |
| `Decisions.GrantExactly` | fabric-network/chaincode/olivechain-domain/wallet.go:405-496 | A grant is accepted if and only if an organisation administrator, whose own wallet if any is bound, grants a role of its own organisation (its own role only without a wallet) to a registered wallet, under a certificate that acts for no other wallet and for a wallet on which no other certificate acts |
| `Decisions.ApproveExactly` | fabric-network/chaincode/olivechain-domain/wallet.go:323-358 | An approval is accepted if and only if there is an open request to the administrator's own organisation and the grant it asks for is possible |
| `Decisions.RejectExactly` | fabric-network/chaincode/olivechain-domain/wallet.go:360-403 | A rejection is accepted if and only if there is an open request to the administrator's own organisation |
| `Decisions.RevokeExactly` | fabric-network/chaincode/olivechain-domain/wallet.go:498-531 | A revocation is accepted if and only if the wallet has an active role that the administrator's own organisation gave |
| `Decisions.RegisterLeaves` | fabric-network/chaincode/olivechain-domain/wallet.go:85-127 | A new wallet is a consumer's, and nothing else in the tables changes |
| `Decisions.RequestLeaves` | fabric-network/chaincode/olivechain-domain/wallet.go:166-213 | The wallet is pending on a new open request to the organisation the role belongs to; every other wallet and request is as before |
| `Decisions.GrantLeaves` | fabric-network/chaincode/olivechain-domain/wallet.go:416-496 | The wallet holds the role under the certificate, its open requests are superseded by the granting organisation, and every other wallet and request is as before |
| `Decisions.ApproveLeaves` | fabric-network/chaincode/olivechain-domain/wallet.go:323-358 | The same for an approval, whose own request is approved |
| `Decisions.RejectLeaves` | fabric-network/chaincode/olivechain-domain/wallet.go:360-403 | The request is rejected with its reason, the wallet is a consumer's again, and nothing else changes |
| `Decisions.RevokeLeaves` | fabric-network/chaincode/olivechain-domain/wallet.go:498-531 | The wallet is revoked and keeps everything else, as do all others |
| `Decisions.RolesBelong` | fabric-network/chaincode/olivechain-domain/wallet.go:55-68 | In every reachable state each request is for an open role and goes to its organisation, and each active wallet's role belongs to its organisation or is the administrator's |
| `Decisions.RoleHolders` | fabric-network/chaincode/olivechain-domain/models.go:98-112 | A certificate may hold a role if and only if it belongs to its organisation, is the administrator's, or is the courier's consumer role |
| `Decisions.OnlyAdministratorsDecide` | fabric-network/chaincode/olivechain-domain/wallet.go:280-292 | Whatever transaction decides a request, gives or takes an active role or changes a proposal, its certificate is an organisation administrator's of a business organisation |
| `Guarantees.WalletsConsistent` | fabric-network/chaincode/olivechain-domain/wallet.go:294-531 | In every reachable state the certificate index holds exactly the active wallets (so no two share a certificate) and a wallet is pending exactly when it has an open request, which is the only one and the one it names |
| `Transactions.RoleTable.RegisterWallet` | fabric-network/chaincode/olivechain-domain/wallet.go:85-127 | The checks and the write are the specified step |
| `Transactions.RoleTable.RequestWalletRole` | fabric-network/chaincode/olivechain-domain/wallet.go:166-213 | The checks, the scan for an open request and the two writes are the specified step |
| `Transactions.RoleTable.CloseOtherRequests` | fabric-network/chaincode/olivechain-domain/wallet.go:294-321 | The loop closes every other open request of the wallet and nothing else |
| `Transactions.RoleTable.GrantWallet` | fabric-network/chaincode/olivechain-domain/wallet.go:416-496 | The shared grant is the specified step on all three tables |
| `Transactions.RoleTable.ApproveRoleRequest` | fabric-network/chaincode/olivechain-domain/wallet.go:323-358 | The specified step, including the request's own decision after the grant |
| `Transactions.RoleTable.RejectRoleRequest` | fabric-network/chaincode/olivechain-domain/wallet.go:360-399 | The specified step |
| `Transactions.RoleTable.RevokeWalletRole` | fabric-network/chaincode/olivechain-domain/wallet.go:498-531 | The specified step, including the release of the certificate |
| `Governance.InsertApprovalDistinct` | fabric-network/chaincode/olivechain-domain/governance.go:79-93 | Keeping approvals in name order under the check for a repeated organisation keeps them pairwise distinct |
| `Governance.FinalizeKeepsProposals` | fabric-network/chaincode/olivechain-domain/governance.go:96-149 | Finalizing adds one event and one finalized proposal that name each other |
| `Governance.ThreeOrganisationsSuffice` | fabric-network/chaincode/olivechain-domain/governance.go:17-119 | A proposal and two approvals reach the threshold if and only if they come from three different organisations |
| `Guarantees.GovernedEventsApproved` | fabric-network/chaincode/olivechain-domain/governance.go:17-149 | In every reachable state finalized proposals and reward, flag and resolution events correspond one to one, with equal type and payload and approvals of at least three different business organisations |
| `Transactions.OliveChainContract.ProposeGovernanceEvent` | fabric-network/chaincode/olivechain-domain/governance.go:17-62 | The specified step |
| `Transactions.OliveChainContract.ApproveGovernanceProposal` | fabric-network/chaincode/olivechain-domain/governance.go:64-94 | The specified step: an organisation's second approval changes nothing |
| `Transactions.OliveChainContract.CountApprovers` | fabric-network/chaincode/olivechain-domain/governance.go:111-119 | Counts the different business organisations among the approvals |
| `Transactions.OliveChainContract.FinalizeGovernanceProposal` | fabric-network/chaincode/olivechain-domain/governance.go:96-149 | The threshold, the re-check, the event and the proposal update are the specified step |
| `Decisions.ProposeExactly` | fabric-network/chaincode/olivechain-domain/governance.go:17-62 | A proposal is accepted if and only if an organisation administrator proposes a governed type with an accepted payload under a new id; it starts with the proposer's approval alone |
| `Decisions.ApproveProposalExactly` | fabric-network/chaincode/olivechain-domain/governance.go:64-94 | An approval is accepted if and only if an organisation administrator approves an open proposal; it adds the organisation's approval once and changes nothing else |
| `Decisions.FinalizeExactly` | fabric-network/chaincode/olivechain-domain/governance.go:96-149 | A proposal is finalized if and only if an administrator asks for it, three different business organisations approve it, it is open, what it claims still holds (a reward is earned by its basis, a flag names a stored event, a resolution a stored flag), and its event's id is new |
| `Decisions.FinalizeLeaves` | fabric-network/chaincode/olivechain-domain/governance.go:96-149 | The event is the consortium's, with the proposal's type, subject and payload, and the proposal names it |
| `Decisions.ApprovalsInNameOrder` | fabric-network/chaincode/olivechain-domain/governance.go:79-93 | In every reachable state a proposal lists its approvals by strictly rising organisation name |
| `Governance.RulesByType` | fabric-network/chaincode/olivechain-domain/models.go:132-147 | An event type has at most one rule and a rule id one rule, and no rule pays more than 25 |
| `Governance.NewRewardIsNew` | fabric-network/chaincode/olivechain-domain/incentives.go:125-140 | A proposal that validates pays its one basis event's actor the rule's amount, and no reward for that pair exists |
| `Governance.OneRewardPerEvent` | fabric-network/chaincode/olivechain-domain/incentives.go:68-82 | No two reward events share a basis event |
| `Governance.BalanceIsPoints` | fabric-network/chaincode/olivechain-domain/incentives.go:108-123 | A balance is the sum of the points of the organisation's own rewarded events, each once, so at most 25 per event |
| `Guarantees.RewardsOnce` | fabric-network/chaincode/olivechain-domain/incentives.go:11-140 | In every reachable state each event is rewarded at most once, to its own actor, for exactly its rule's amount, by an event that is never superseded, and balances are sums of those points |
| `Contract.EventTable.OpenFlaggedEvents` | fabric-network/chaincode/olivechain-domain/incentives.go:84-106 | The two maps filled in one pass give the flagged events whose last flag is unresolved |
| `Contract.EventTable.AlreadyRewarded` | fabric-network/chaincode/olivechain-domain/incentives.go:68-82 | True exactly when some listed reward has the rule and names the basis |
| `Contract.EventTable.DueRewards` | fabric-network/chaincode/olivechain-domain/incentives.go:11-66 | The nested loops and the sort return exactly the due rewards, by recipient and rule, with pairwise different basis events |
| `Contract.EventTable.CheckRule` | fabric-network/chaincode/olivechain-domain/incentives.go:26-57 | The checks of one rule on one event, mass balance and quality class included, hold exactly when the reward is due |
| `Contract.EventTable.ValidateReward` | fabric-network/chaincode/olivechain-domain/incentives.go:125-140 | A reward payload is accepted exactly when it has one basis event and claims a due reward |
| `RewardLaws.OpenIsUnderReview` | fabric-network/chaincode/olivechain-domain/incentives.go:84-106 | An event counts as flagged if and only if no listed resolution names the last listed flag on it |
| `RewardLaws.DueExactly` | fabric-network/chaincode/olivechain-domain/incentives.go:11-66 | A reward is due if and only if a listed event earns it: it pays its author what the catalogue says for its type, no listed reward of that rule names it, it is not under review, and its lot has no issue, or its quality class is a good one, where the rule asks for that |
| `RewardLaws.AllowedExactly` | fabric-network/chaincode/olivechain-domain/incentives.go:125-140 | A reward payload passes if and only if it names one basis event and claims exactly what that event earns |
| `RewardLaws.UnderReviewEarnsNothing` | fabric-network/chaincode/olivechain-domain/incentives.go:34-36 | No reward is due on an event whose last flag is unresolved |
| `RewardLaws.PlainEventEarns` | fabric-network/chaincode/olivechain-domain/incentives.go:26-57 | An event of a rule without balance check that is not under review and was not rewarded is due, lab verifications with a good quality class |
| `RewardLaws.WrittenRewardsEarned` | fabric-network/chaincode/olivechain-domain/governance.go:96-149 | Whichever transaction writes a reward, its one basis event earned exactly that reward in the state before, so it was not under review and its lot balanced where the rule asks for it |
| `Contract.SumRewards` | fabric-network/chaincode/olivechain-domain/incentives.go:108-123 | The map filled by the loop holds each recipient's sum |
| `Contract.EventTable.RewardBalances` | fabric-network/chaincode/olivechain-domain/incentives.go:108-123 | The balances are those of all reward events of the table |
| `Values.TruncateMeans` | fabric-network/chaincode/olivechain-domain/incentives.go:120-132 | Reward amounts are read toward zero: the result is on the same side of zero and loses less than one |
| `MassBalance.Reconcile` | fabric-network/chaincode/olivechain-domain/massbalance.go:21-82 | One pass and the five checks give the specified totals, recovered quantity by output type, issues, verdict and rounded recovery |
| `MassBalance.Check` | fabric-network/chaincode/olivechain-domain/massbalance.go:48-77 | The issues appended in order are exactly those that hold |
| `MassBalance.WithinBounds` | fabric-network/chaincode/olivechain-domain/massbalance.go:48-54 | When one side is positive, tolerance means each side is at least 0.95 of the other |
| `MassBalance.TotalsJoin` | fabric-network/chaincode/olivechain-domain/massbalance.go:23-47 | The five totals of a listing are the sums of the totals of its parts |
| `MassBalance.TotalsOfOne` | fabric-network/chaincode/olivechain-domain/massbalance.go:29-39 | What one event of each type adds to each of the five totals, field by field from its payload, rejected mass included |
| `MassBalance.BalancedIff` | fabric-network/chaincode/olivechain-domain/massbalance.go:48-77 | A lot with generated, transferred and accepted mass is balanced if and only if each of the four masses is within five percent of the one before it; accepted mass without valorization is never balanced |
| `Values.AsBoolMeans` | fabric-network/chaincode/olivechain-domain/helpers.go:411-416 | A truth value reads as itself, and any other value as true if and only if its text is true in any case |
| `MassBalance.IssueMeaning` | fabric-network/chaincode/olivechain-domain/massbalance.go:55-76 | Each of the five issues is reported if and only if its condition on the totals holds |
| `MassBalance.RecoveryMeaning` | fabric-network/chaincode/olivechain-domain/massbalance.go:78-80 | Recovery is the transformed share of the generated mass in percent, reported to the nearest hundredth |
| `MassBalance.RecoveredJoin` | fabric-network/chaincode/olivechain-domain/massbalance.go:40-45 | Recovered quantities by output type add up over the parts of a listing |
| `MassBalance.RecoveredOfOne` | fabric-network/chaincode/olivechain-domain/massbalance.go:40-45 | A valorization with one output record puts out the record's quantity under its type |
| `MassBalance.BalancedLotBound` | fabric-network/chaincode/olivechain-domain/massbalance.go:21-82 | A balanced lot with positive accounted mass satisfies 0.95^3 generated <= accounted and 0.95^3 accounted <= generated whatever the signs, and 0.95^2 accounted <= generated when no custody weight is negative |
| `MassBalance.RecoveryBound` | fabric-network/chaincode/olivechain-domain/massbalance.go:77-80 | Then unrounded recovery is at most 100 / 0.9025 percent, and the reported figure at most 110.8 |
| `MassBalance.BoundIsTight` | fabric-network/chaincode/olivechain-domain/massbalance.go:21-82 | A concrete balanced lot reaches 0.95^3, so the lower bound cannot be improved |
| `MassBalance.NegativeWeightExceeds` | fabric-network/chaincode/olivechain-domain/massbalance.go:21-82 | A balanced lot with a negative custody weight exceeds the two-tolerance bound, so the condition on weights is needed |
| `Tokens.CreditEcoKeeps` | fabric-network/chaincode/olivechain-domain/tokens.go:241-284 | After any ECO credit every balance is still the sum of its log, with one row per lot |
| `Tokens.CreditEcoAdds` | fabric-network/chaincode/olivechain-domain/tokens.go:241-284 | A credit for a lot without one adds one log row with its amount and raises the balance by it; any other credit changes no row and no balance |
| `Tokens.IncentivesKeep` | fabric-network/chaincode/olivechain-domain/tokens.go:131-179 | Accepting an event keeps ECO balances, the one credit per lot, the trust range and the base of active wallets, whichever reads the platform gives, and never lowers trust |
| `Tokens.InitializeKeeps` | fabric-network/chaincode/olivechain-domain/tokens.go:51-61 | A role grant brings the wallet to at least 50 and keeps every other account rule |
| `Tokens.OliveSurvivesIffOwnReads` | fabric-network/chaincode/olivechain-domain/tokens.go:131-179 | The OLIVE credit of a milestone is logged, but stays in the balance if and only if reads see the transaction's own writes |
| `Tokens.TrustEarned` | fabric-network/chaincode/olivechain-domain/tokens.go:152-164 | An operational event earns one point of trust; a first distribution earns four more if reads see the transaction's own writes and four instead otherwise, all clamped |
| `Tokens.MintsOnce` | fabric-network/chaincode/olivechain-domain/tokens.go:186-239 | A lot that has been paid for is never paid for again, whatever the table holds later |
| `Tokens.MintPays` | fabric-network/chaincode/olivechain-domain/tokens.go:186-239 | Minting pays a tenth of a token per kWh to the maker of an uncredited lot with origin, maker and recovered energy, and changes no other balance |
| `TokenLaws.EnergyJoin` | fabric-network/chaincode/olivechain-domain/tokens.go:199-210 | The energy of a lot adds up over the parts of its listing |
| `TokenLaws.EnergyOfOne` | fabric-network/chaincode/olivechain-domain/tokens.go:207-209 | One event adds the quantity of a bioenergy output and nothing otherwise |
| `TokenLaws.EcoNearest` | fabric-network/chaincode/olivechain-domain/tokens.go:231-234 | The payment is a tenth of a token per kWh to the nearest hundredth |
| `TokenLaws.PaymentExactly` | fabric-network/chaincode/olivechain-domain/tokens.go:186-239 | A lot pays a maker an amount if and only if it was never credited, its last generation names a batch whose last milling under a wallet is the maker's, and the amount is positive and nearest to a tenth of its energy |
| `TokenLaws.IncentivesExactly` | fabric-network/chaincode/olivechain-domain/tokens.go:131-177 | Every account after an accepted event of an active wallet, in closed form, under either read behaviour: the author's trust and OLIVE, and the payment of a lot that finishes |
| `TokenLaws.SubmissionPays` | fabric-network/chaincode/olivechain-domain/tokens.go:131-177 | The same of every accepted submission over the whole state |
| `TokenLaws.InactiveEarnsNothing` | fabric-network/chaincode/olivechain-domain/tokens.go:131-138 | An event whose author has no active wallet changes no account, row or credit |
| `TokenLaws.WalletlessPaysNobody` | fabric-network/chaincode/olivechain-domain/tokens.go:131-138 | A consumer's submission without a wallet leaves the token book as it was |
| `TokenLaws.GrantTrusts` | fabric-network/chaincode/olivechain-domain/tokens.go:51-61 | A grant brings the wallet's trust to 50 if it has less and changes no account otherwise |
| `TokenLaws.OthersPayNothing` | fabric-network/chaincode/olivechain-domain/tokens.go:131-177 | No other transaction changes any account |
| `Guarantees.AccountsMatch` | fabric-network/chaincode/olivechain-domain/tokens.go:131-328 | In every reachable state each ECO balance is the sum of its log with at most one row per lot, trust is within 0..100, and active wallets have at least 50 |
| `Contract.TokenSession.CreditOliveToken` | fabric-network/chaincode/olivechain-domain/tokens.go:241-284 | The credit is the specified session step |
| `Contract.TokenSession.CreditEcoToken` | fabric-network/chaincode/olivechain-domain/tokens.go:241-284 | The credit is the specified session step |
| `Contract.TokenSession.Adjust` | fabric-network/chaincode/olivechain-domain/tokens.go:286-328 | The clamped change, its log row and its marker are the specified session step |
| `Contract.TokenSession.Initialize` | fabric-network/chaincode/olivechain-domain/tokens.go:51-61 | The base adjustment is the specified session step |
| `Contract.TokenSession.AddBonuses` | fabric-network/chaincode/olivechain-domain/tokens.go:140-164 | The bonuses of an event, in order, are the specified session steps |
| `Transactions.OliveChainContract.MintEcoForLot` | fabric-network/chaincode/olivechain-domain/tokens.go:186-239 | Minting for a finished lot is the specified session step |
| `Transactions.OliveChainContract.ApplyWalletIncentives` | fabric-network/chaincode/olivechain-domain/tokens.go:131-179 | The incentives of an accepted event are the specified session |
| `Transactions.OliveChainContract.WriteEvent` | fabric-network/chaincode/olivechain-domain/helpers.go:331-378 | Gate, event, indexes and incentives are the specified step; a refused event changes nothing |
| `Transactions.OliveChainContract.SubmitEvent` | fabric-network/chaincode/olivechain-domain/contract.go:46-77 | The specified step |
| `Transactions.OliveChainContract.CorrectEvent` | fabric-network/chaincode/olivechain-domain/contract.go:79-123 | The specified step; a target that is already superseded is refused with nothing written |
| `Acceptance.SubmitExactly` | fabric-network/chaincode/olivechain-domain/contract.go:46-77 | A submission is accepted if and only if the transaction is new, the certificate's role may be held by its organisation and may submit the type, that role is active for its wallet under this certificate's hash and organisation (or it is a consumer's verification without a wallet), subject and payload are accepted, the event may come next in its subject's history, and its id is new |
| `Acceptance.SubmitStores` | fabric-network/chaincode/olivechain-domain/helpers.go:331-378 | An accepted submission adds exactly one event, with the submitted contents and the identity and time of the transaction |
| `Acceptance.CorrectExactly` | fabric-network/chaincode/olivechain-domain/contract.go:79-123 | A correction is accepted if and only if the transaction is new, the certificate is bound to its wallet's active role, the target is stored, unsuperseded and by the same organisation and role, and the id is new |
| `Acceptance.SubmitsIsPermitted` | fabric-network/chaincode/olivechain-domain/models.go:51-75 | The types each role may submit, role by role |
| `Acceptance.InactiveWritesNothing` | fabric-network/chaincode/olivechain-domain/wallet.go:533-548 | While a wallet has no active role no transaction stores an event in its name |
| `Acceptance.OnlyGrantsActivate` | fabric-network/chaincode/olivechain-domain/wallet.go:416-496 | Only a grant to a wallet or the approval of its request makes it active |
| `Acceptance.RevokedWritesNothing` | fabric-network/chaincode/olivechain-domain/wallet.go:498-531 | After a revocation, in whatever run follows, the wallet stays without a role and no event is stored in its name until it is given a role again |
| `Acceptance.TablesTouched` | fabric-network/chaincode/olivechain-domain/contract.go:46-123 | Each kind of transaction leaves the tables of the others alone |
| `Transactions.OliveChainContract.Execute` | fabric-network/chaincode/olivechain-domain/contract.go:46-123 | Any of the eleven transactions is one step of the specified machine and keeps all its tables consistent |
| `World.StepKeeps` | fabric-network/chaincode/olivechain-domain/contract.go:46-123 | Every transaction, accepted or refused, keeps every table consistent in itself and with the others, and undoes nothing |
| `World.RunKeeps` | fabric-network/chaincode/olivechain-domain/contract.go:46-123 | So does every run |
| `Authorship.StoredEventsAuthored` | fabric-network/chaincode/olivechain-domain/contract.go:46-123 | In every reachable state every event has an accepted payload and an author entitled to it: the consortium for governed events, the same organisation and role as the target for corrections, otherwise a role permitted for the type and held by its organisation, with a registered wallet unless it is a consumer's verification |
| `Authorship.FieldsReadArePresent` | fabric-network/chaincode/olivechain-domain/helpers.go:63-91 | In every reachable state each stored event has every payload field that reconciliation, rewards, minting, the gate or corrections read of it |
| `Authorship.EnumerationsKnown` | fabric-network/chaincode/olivechain-domain/helpers.go:63-91 | In every reachable state a residue or output type given as a text is one of the six or seven known ones |
| `Guarantees.NothingUndone` | fabric-network/chaincode/olivechain-domain/wallet.go:323-399 | Whatever follows, stored events and pointers, decided requests and finalized proposals stay as they are, and trust never falls |
| `Guarantees.CorrectionsEnd` | fabric-network/chaincode/olivechain-domain/helpers.go:210-240 | In every reachable state the effective payload of every event is the original overlaid with the patches of its own chain, and chains of different originals are disjoint |
| `Guarantees.ListingsAgree` | fabric-network/chaincode/olivechain-domain/helpers.go:270-329 | In every reachable state each index lists exactly the events with its field value, once, in strict order, as filtering all events would, superseded events kept or dropped alike |
| `Base58.B58Encode` | olivechain/credentials.py:27-34 | The loop over quotients and the leading-zero prefix give the specified text |
| `Base58.B58Decode` | olivechain/credentials.py:37-43 | The loop over characters, the byte length taken from the bit length, and the leading-one prefix give the specified bytes, or a failure outside the alphabet |
| `Base58.ConvertRoundTrip` | olivechain/credentials.py:27-43 | Changing base there and back gives the same digits, leading zeros included, for any two bases |
| `Base58.MinimalBytes` | olivechain/credentials.py:37-43 | As many bytes as the bit length needs are the shortest digit string of the number |
| `Base58.LetterIsAlphabet` | olivechain/credentials.py:22-23 | The alphabet has 58 letters and its positions are inverted by the index of each letter |
| `Base58.DecodeEncode` | olivechain/credentials.py:27-43 | Decoding an encoded byte string gives it back, for every byte string |
| `Base58.EncodeDecode` | olivechain/credentials.py:27-43 | A text decodes if and only if all its characters are in the alphabet, and encoding the result gives the text back |
| `Base58.DidKeyRoundTrip` | olivechain/credentials.py:55-67 | The key of a did:key, with or without a fragment, is the key it was made from |
| `Base58.DidKeyUnique` | olivechain/credentials.py:60-67 | A did:key that is read is the one its key would be given |
| `Base58.EncodeMeans` | olivechain/credentials.py:27-34 | A text writes, in base 58 over the alphabet, the number its bytes write in base 256, with one leading '1' for each leading zero byte |
| `Base58.DidKeyForm` | olivechain/credentials.py:55-67 | An identifier yields a key if and only if, before its fragment, it is did:key:z followed by the text of the bytes ed 01 and the key |
| `RateLimiter.Limiter.Allow` | olivechain/api.py:202-211 | Pruning and the check are the specified step on the key's queue; other keys are untouched |
| `RateLimiter.AnswersAreExact` | olivechain/api.py:202-211 | With a clock that does not go back, the answer is the one that counting all past accepted hits of the window would give |
| `RateLimiter.WindowsHoldAtMostLimit` | olivechain/api.py:202-211 | Then no half-open window of that length holds more than `limit` accepted calls |
| `RateLimiter.ClockGoingBackOverfills` | olivechain/api.py:202-211 | A concrete sequence of calls with a clock that goes back overfills a window |
| `RateLimiter.CountsIffClockNeverGoesBack` | olivechain/api.py:202-211 | For any times of calls, the queue gives the counted answer to every call under every limit and window if and only if the clock never goes back |
| `RateLimiter.KeysAreIndependent` | olivechain/api.py:202-211 | A key's queue is the one its own calls alone would leave |
| `LocalLedger.SplitAtBrace` | olivechain/ledger.py:49-60 | A body and the signature after it are determined by their concatenation |
| `LocalLedger.HeadDeterminesChain` | olivechain/ledger.py:213-228 | Two chains that pass the audit and end in the same hash have equal length and agree on every signed body and signature, or the two chains themselves contain a collision of hash or serialisation, or a hash equal to the genesis value |
| `LocalLedger.AuditIgnoresUnsigned` | olivechain/ledger.py:49-60 | The audit cannot tell apart chains that differ outside the signed bodies, signatures and hashes |
| `LocalLedger.AppendKeeps` | olivechain/ledger.py:77-135 | An append keeps the audit passing and memory equal to what a reload rebuilds |
| `LocalLedger.CommitKeeps` | olivechain/ledger.py:138-174 | So does a prepared commit behind the signature check |
| `LocalLedger.RebuiltPointsForward` | olivechain/ledger.py:231-245 | Rebuilt pointers always lead to a later correction |
| `LocalLedger.EffectiveEnds` | olivechain/ledger.py:198-207 | So the walk for the effective payload ends, and yields a payload if and only if each patch on its own chain is readable |
| `LocalLedger.ReachedLedgers` | olivechain/ledger.py:77-245 | Every ledger reached by appends and commits passes its audit, and reloading its file gives the same events, pointers and effective payloads |
| `LocalLedger.Ledger.AppendEvent` | olivechain/ledger.py:77-135 | The checks, the pointer and the three writes are the specified step |
| `LocalLedger.Ledger.CommitEvent` | olivechain/api.py:1068-1074 | The signature check followed by the prepared commit is the specified step |
| `LocalLedger.Ledger.EffectivePayload` | olivechain/ledger.py:198-207 | The loop follows pointers and computes the specified payload |
| `LocalCorrections.LoadedPointers` | olivechain/ledger.py:231-245 | After a reload each pointer names the last stored correction that names its event, and events that none names have no pointer |
| `LocalCorrections.LatestSets` | olivechain/ledger.py:198-207 | Each key of an effective payload comes from the latest correction on the walk whose stored `corrected_payload` has it, otherwise from the original |
| `LocalCorrections.ReadableIs` | olivechain/ledger.py:203-204 | A patch is readable if and only if it is missing, an object, or an empty text or list |
| `LocalCorrections.EffectiveOfReached` | olivechain/ledger.py:77-207 | In every ledger reached by appends and commits the walk visits the last correction naming the event, the last naming that one, and so on; it yields a payload if and only if each of their patches is readable, and each key comes from the latest of them that sets it, otherwise from the event |
| `LocalWrites.AppendExactly` | olivechain/ledger.py:77-135 | An append is accepted if and only if its author is registered with a role for the type, the required fields are there, the signature verifies over the body with the head's hash, and a correction names a stored event by its own author or an authority |
| `LocalWrites.CommitExactly` | olivechain/ledger.py:138-174 | A commit is accepted if and only if the same holds of the body as signed, its id is new, and it names the present head |
| `LocalWrites.WritesLeave` | olivechain/ledger.py:77-174 | A write adds one entry with the hash of its body and signature to memory and file, and changes of the others only the pointer of the event it corrects |
| `LocalWrites.EntriesWritten` | olivechain/ledger.py:77-174 | In every ledger reached by appends and commits each entry was written by an organisation with a role for it, and each correction corrects an earlier entry of its own author or is by an authority |
| `LocalLedger.Ledger.VerifyChain` | olivechain/ledger.py:213-228 | The audit reports exactly the faults of the chain, and none if and only if every link, signature and hash is right |
| `LocalLedger.Ledger.Reload` | olivechain/ledger.py:231-245 | Reading the lines and rebuilding the pointers leaves memory as it was |
| `LocalIncentives.ReconcileResidue` | olivechain/massbalance.py:48-95 | The local reconciliation returns the totals, issues and rounded recovery of the lot, and fails exactly where a reading fails |
| `LocalIncentives.LocalLotBound` | olivechain/massbalance.py:48-95 | The compound bounds hold of the local reconciliation too, the two-tolerance one when no custody weight of the lot is negative |
| `LocalIncentives.LocalRecoveryBound` | olivechain/massbalance.py:41-45 | Then recovery is at most 100 / 0.9025 percent and the reported figure at most 110.8 |
| `LocalRewardLaws.LotJoin` | olivechain/massbalance.py:48-66 | The totals of a listing are the sums over its parts, unreadable when those of a part are |
| `LocalRewardLaws.LotOfOne` | olivechain/massbalance.py:48-66 | What one current event of the lot adds to each of the five totals, field by field, and when it cannot be read; other and superseded events add nothing |
| `LocalRewardLaws.TotalsReadable` | olivechain/massbalance.py:48-66 | The reconciliation fails if and only if some current event of the lot cannot be read |
| `LocalRewardLaws.RecoveryReported` | olivechain/massbalance.py:41-45 | The reported recovery is the transformed share in percent to the nearest hundredth |
| `LocalIncentives.RuleOfIsTable` | olivechain/incentives.py:35-52 | The lookup by event type finds a rule exactly when the catalogue has it for that type |
| `LocalIncentives.RuleDueAfter` | olivechain/incentives.py:55-106 | Issuing a reward settles exactly the pair it names and leaves every other rule's verdict alone |
| `LocalIncentives.IssueFirst` | olivechain/incentives.py:75-106 | Issuing the first due reward leaves exactly the others due |
| `LocalIncentives.IssuingSettles` | olivechain/incentives.py:132-152 | Issuing everything due leaves nothing due, raises every balance by exactly what was due to it, and rewards no pair again |
| `LocalIncentives.InterleavedOnce` | olivechain/incentives.py:132-152 | However engine runs and other events interleave, no pair of event and rule is rewarded twice |
| `LocalIncentives.IncentiveEngine.Scan` | olivechain/incentives.py:75-106 | The scan returns the due rewards in order and writes nothing |
| `LocalIncentives.IncentiveEngine.CheckEvent` | olivechain/incentives.py:82-105 | The checks on one event give its due reward, if any, or fail where a reading fails |
| `LocalIncentives.IncentiveEngine.Balances` | olivechain/incentives.py:119-126 | The map holds each recipient's unsuperseded points |
| `LocalRewardLaws.LocalDueExactly` | olivechain/incentives.py:55-106 | The scan returns a reward if and only if a current entry earns it, said on stored entries as on chain, and fails if and only if an entry needs the balance of a lot that cannot be read |
| `LocalRewardLaws.BalanceJoin` | olivechain/incentives.py:119-126 | Balances add up over the parts of a listing |
| `LocalRewardLaws.BalanceOfOne` | olivechain/incentives.py:119-126 | A reward that is not superseded holds its amount for its recipient, anything else nothing |
| `LocalIncentives.IncentiveEngine.Run` | olivechain/incentives.py:132-152 | A run appends one reward for each due entry; afterwards nothing is due, balances rose by exactly what was issued, and no pair is rewarded twice if none was before |

## Left out

- HTTP routes, cookies, front ends, PDF and QR output, backups, the Fabric client and adapters, and the weather oracle.
- Messages, labels, progress percentages and display times.
- Transactions.OliveChainContract.WriteEvent: evidence references, the event hash, the emitted notification and the payload size limit are not modelled; no modelled rule reads them.
- Organisation records: the organisation mapped to an MSP arrives with each transaction.
- Transactions.RoleTable.GrantWallet: the record of the grant, which no modelled operation reads, and the wallet's time stamps are not modelled.
- Transactions.RoleTable.RegisterWallet: the display name is checked but not stored.
- LocalIncentives.ReconcileResidue: the local breakdown of outputs, whose keys may be any hashable value, is only checked for readability.
- Listing.SortEventsSorts: an insertion sort stands for the library's sort; the result is the same because the order is strict.
- LocalLedger.Ledger.EffectivePayload: a `corrected_payload` given as a non-empty list of pairs counts as a failure, although Python would accept it.
- LocalIncentives.IncentiveEngine.Balances: a reward payload without a recipient or with an unreadable amount counts as empty or zero, where Python would raise.
- LocalIncentives.RuleDueAfter: flags, resolutions and rewards whose payload lacks the field the engine reads are skipped, where Python would raise.
- LocalLedger.Ledger.CommitEvent: of the endpoint's checks only the signature and those of the commit are modelled; the others only refuse more.
- LocalLedger.Ledger.AppendEvent: the signature that the key pair yields is a parameter; the object identity of a stored event, which callers could mutate, is not modelled.
- Transactions.OliveChainContract.CorrectEvent: the chaincode writes the correction before it checks the supersession key; a failing transaction leaves no writes, so the model checks first.
- RateLimiter.Limiter.Allow: the lock is not modelled, since calls are serial under it; limit and window are fixed per key in the results about sequences.
- Sums of the OLIVE and trust logs: OLIVE depends on which writes a transaction reads, and trust rows share a key when the score saturates.
- Floating-point rounding: quantities are reals.
