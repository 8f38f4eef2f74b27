/** Event, role and organisation tables shared by the chaincode. */
module Events {
  import opened Values

  datatype EventType =
    | Cultivation | Harvest | CollectionTransport | Milling | LabVerification | Bottling | DistributionRetail
    | ConsumerVerification
    | ResidueGeneration | ResidueCustody | Valorization | UsefulOutput | ReturnOrSale | EnvAccounting
    | Correction | RewardIssued | ReviewFlag | ReviewResolution

  datatype Role =
    | Farmer | Collector | Mill | Laboratory | Bottler | Distributor | Retailer | Processor
    | Authority | Consumer | OrgAdmin

  /** The four business MSPs, the pseudo-MSP that signs governed events, and any other. */
  datatype Msp = FarmerMsp | MakerMsp | CourierMsp | RecyclerMsp | ConsortiumMsp | OtherMsp(name: string)

  datatype Event = Event(
    id: string, etype: EventType, subject: string,
    actorOrg: string, actorMsp: Msp, actorRole: Role, actorWallet: string, clientHash: string,
    timestamp: real, orderKey: int, payload: Payload)

  /** The identity a certificate yields once its role has been checked against its MSP. */
  datatype Identity = Identity(msp: Msp, role: Role, wallet: string, clientHash: string, orgId: string)

  /** What a transaction brings: the submitter's certificate (no role when the attribute is missing),
      the organisation its MSP is mapped to, if any, the transaction id and time, and whether reads
      inside the transaction see its own writes, which only some token amounts depend on. */
  datatype Ctx = Ctx(
    msp: Msp, role: Option<Role>, wallet: string, clientHash: string, org: Option<string>,
    txId: string, seconds: real, nanos: int, readsOwnWrites: bool)

  function MspName(m: Msp): string {
    match m
    case FarmerMsp => "FarmerOrgMSP"
    case MakerMsp => "MakerOrgMSP"
    case CourierMsp => "CourierOrgMSP"
    case RecyclerMsp => "RecyclerOrgMSP"
    case ConsortiumMsp => "Consortium"
    case OtherMsp(name) => name
  }

  /** The caller of a transaction, if its certificate carries a role that its MSP may hold. */
  function Caller(c: Ctx): Option<Identity> {
    if c.role.Some? && c.role.value in MspRoles(c.msp) then
      Some(Identity(c.msp, c.role.value, c.wallet, c.clientHash, if c.org.Some? then c.org.value else MspName(c.msp)))
    else None
  }

  predicate Governed(t: EventType) {
    t == RewardIssued || t == ReviewFlag || t == ReviewResolution
  }

  function MspRoles(m: Msp): set<Role> {
    match m
    case FarmerMsp => {Farmer, OrgAdmin}
    case MakerMsp => {Mill, Laboratory, Bottler, OrgAdmin}
    case CourierMsp => {Collector, Distributor, Retailer, Consumer, OrgAdmin}
    case RecyclerMsp => {Processor, OrgAdmin}
    case _ => {}
  }

  predicate BusinessMsp(m: Msp) {
    m == FarmerMsp || m == MakerMsp || m == CourierMsp || m == RecyclerMsp
  }

  function Permitted(t: EventType): set<Role> {
    match t
    case Cultivation => {Farmer}
    case Harvest => {Farmer}
    case CollectionTransport => {Collector}
    case Milling => {Mill}
    case LabVerification => {Laboratory}
    case Bottling => {Bottler}
    case DistributionRetail => {Distributor, Retailer}
    case ConsumerVerification => {Consumer, Retailer}
    case ResidueGeneration => {Mill}
    case ResidueCustody => {Collector, Processor}
    case Valorization => {Processor}
    case UsefulOutput => {Processor}
    case ReturnOrSale => {Processor, Distributor}
    case EnvAccounting => {Authority, Processor}
    case Correction => {Farmer, Collector, Mill, Laboratory, Bottler, Distributor, Retailer, Processor, Consumer,
                        Authority}
    case RewardIssued => {Authority}
    case ReviewFlag => {Authority}
    case ReviewResolution => {Authority}
  }

  function RequiredFields(t: EventType): set<string> {
    match t
    case Cultivation => {"farm_id", "plot_id", "cultivar", "practices"}
    case Harvest => {"date", "quantity_kg", "method", "location"}
    case CollectionTransport => {"from_org", "to_org", "weight_kg", "container_ids"}
    case Milling => {"received_kg", "extraction_method", "temperature_c", "oil_yield_l", "residues_declared"}
    case LabVerification => {"quality_class", "results"}
    case Bottling => {"lot_id", "bottle_count", "fill_date", "label_claims"}
    case DistributionRetail => {"from_org", "to_org", "destination"}
    case ConsumerVerification => {"channel"}
    case ResidueGeneration => {"residue_type", "weight_kg", "moisture_pct", "origin_batch"}
    case ResidueCustody => {"residue_id", "weight_kg", "measurement_method", "from_org", "to_org", "accepted"}
    case Valorization => {"residue_id", "input_kg", "method", "outputs", "rejected_kg"}
    case UsefulOutput => {"residue_id", "output_type", "quantity", "unit"}
    case ReturnOrSale => {"residue_id", "output_type", "quantity", "unit", "destination"}
    case EnvAccounting => {"residue_id", "recovery_pct", "avoided_disposal_kg"}
    case Correction => {"supersedes_event", "reason", "corrected_payload"}
    case RewardIssued => {"recipient", "amount", "reward_rule", "basis_events"}
    case ReviewFlag => {"subject_event", "rule", "detail"}
    case ReviewResolution => {"flag_event", "decision", "rationale"}
  }

  const RESIDUE_TYPES := {"pomace", "alpeorujo", "stones", "leaves", "pruning", "wastewater"}

  const OUTPUT_TYPES := {"bioenergy_kwh", "compost_kg", "biochar_kg", "polyphenols_g", "fertilizer_kg",
                         "feedstock_kg", "adsorbent_kg"}

  predicate IsString(v: Json) {
    v.JText? || v.JNumericText?
  }

  /** Required fields are present and enumerated strings are known ones. */
  predicate PayloadAccepted(t: EventType, p: Payload) {
    && RequiredFields(t) <= p.Keys
    && (t == ResidueGeneration && IsString(Field(p, "residue_type")) ==>
          AsString(Field(p, "residue_type")) in RESIDUE_TYPES)
    && (t == UsefulOutput || t == ReturnOrSale ==>
          (IsString(Field(p, "output_type")) ==> AsString(Field(p, "output_type")) in OUTPUT_TYPES))
  }
}
