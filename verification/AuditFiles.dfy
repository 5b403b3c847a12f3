/**
 * The append-only audit store: artifacts named by digest, records that refer to artifacts, and
 * profiled envelopes that refer to artifacts and to the original bytes those were read from.
 * Digests are symbolic and one-to-one; a canonical text is the text of one value.
 */
module AuditFiles {
  import opened Sequences

  const MAX_RECORD_BYTES := 256 * 1024
  const MAX_ARTIFACT_BYTES := 4 * 1024 * 1024

  /** The length of a JSON object's text. */
  type Length = n: nat | 2 <= n witness 2

  datatype Kind =
    | DeploymentPlan | FleetDeploymentPlan | SnmpProvisioningPlan | PlanAssuranceRecord
    | DeploymentPromotionManifest | StagingEvidence | ChangeRecord | FleetChangeRecord
    | SnmpProvisioningRecord
    | ProfiledDeploymentPlan | ProfiledComplianceRecord | ProfiledPromotion | ProfiledChangeRecord

  predicate Profiled(k: Kind) {
    k in {ProfiledDeploymentPlan, ProfiledComplianceRecord, ProfiledPromotion, ProfiledChangeRecord}
  }

  /** Kinds that carry their own digest; the others are named by the digest of their text. */
  predicate Intrinsic(k: Kind) {
    k !in {StagingEvidence, ChangeRecord, FleetChangeRecord, SnmpProvisioningRecord, ProfiledChangeRecord}
  }

  datatype Outcome = Compliant | Delivered(id: nat)

  /** The digests of what was validated before a promotion. */
  datatype Assurance = Assurance(validation: nat, batfish: nat, cml: nat)

  datatype Fields =
    | Plain(id: nat)
    | Planning(change: nat, device: nat, interface: nat, source: nat, credential: nat, target: nat)
    | Promotion(build: nat, commit: nat, promoted: nat, onDevice: nat, onTarget: nat, plan: Digest, planBytes: Digest,
                assurance: Assurance)
    | Execution(executed: Digest, outcome: Outcome)

  /** `valid`: whether the kind's own schema accepts these fields. */
  datatype Body = Body(version: nat, size: Length, valid: bool, fields: Fields)

  datatype Artifact = Artifact(kind: Kind, body: Body, claimed: Digest)

  datatype Digest =
    | OfArtifact(kind: Kind, body: Body)
    | OfText(text: Text)
    | OfRecord(record: RecordBody)
    | OfEnvelope(envelope: EnvelopeBody)
    | OtherDigest(id: nat)

  datatype Text =
    | Canonical(artifact: Artifact)
    | Reformatted(artifact: Artifact, layout: nat, size: nat)   // the same JSON, spelled differently
    | Foreign(id: nat, size: nat)

  datatype Reference = Reference(kind: Kind, version: nat, digest: Digest, size: Length)

  /** `valid`: whether the record's own rules on targets, credentials and kinds accept these fields. */
  datatype RecordBody = RecordBody(
    id: nat, targets: set<nat>, refs: seq<Reference>, size: Length, valid: bool, rest: nat)

  datatype Record = Record(body: RecordBody, digest: Digest)

  datatype Delivery = Executed | Compliance

  datatype EnvelopeBody = EnvelopeBody(
    id: nat, delivery: Delivery, change: nat, device: nat, interface: nat, source: nat, credential: nat,
    build: nat, commit: nat, outcome: Outcome, refs: seq<Reference>, planning: Digest, planningBytes: Digest,
    promotionBytes: Option<Digest>, executionBytes: Option<Digest>, authorization: Option<Digest>,
    assurance: Option<Assurance>, size: Length)

  datatype Envelope = Envelope(body: EnvelopeBody, digest: Digest)

  /** A file under a record's name holds the canonical text of a record, or what a reader must reject. */
  datatype File<T> = Written(value: T) | Alien(id: nat)

  datatype Store = Store(
    artifacts: map<(Kind, Digest), Text>, records: map<nat, File<Record>>,
    originals: map<(Kind, Digest), Text>, envelopes: map<nat, File<Envelope>>)

  datatype StoreError =
    | ReadOnly | KindMismatch | SchemaInvalid | DigestInvalid | TooLarge | Missing | SizeMismatch
    | NotCanonical | IntegrityMismatch | IdentityExists | ReferenceRejected | BytesConflict
    | PublicationFailed

  // ---------------------------------------------------------------- artifacts

  function Size(t: Text): nat {
    match t
    case Canonical(a) => a.body.size
    case Reformatted(_, _, size) => size
    case Foreign(_, size) => size
  }

  predicate SchemaValid(a: Artifact) {
    && a.body.valid
    && (a.kind in {ProfiledDeploymentPlan, ProfiledComplianceRecord} ==> a.body.fields.Planning?)
    && (a.kind == ProfiledPromotion ==> a.body.fields.Promotion?)
    && (a.kind == ProfiledChangeRecord ==> a.body.fields.Execution?)
  }

  function Decode(kind: Kind, t: Text): Option<Artifact> {
    if !t.Foreign? && t.artifact.kind == kind && SchemaValid(t.artifact) then Some(t.artifact) else None
  }

  function Identity(a: Artifact): Digest {
    if Intrinsic(a.kind) then a.claimed else OfText(Canonical(a))
  }

  /** The checks before an artifact is given a name; only some kinds are validated against their schema. */
  function Prepare(kind: Kind, a: Artifact): Result<Digest, StoreError> {
    if a.kind != kind then Err(KindMismatch)
    else if (Profiled(kind) || kind == StagingEvidence) && !SchemaValid(a) then Err(SchemaInvalid)
    else if Intrinsic(kind) && a.claimed != OfArtifact(kind, a.body) then Err(DigestInvalid)
    else Ok(Identity(a))
  }

  function Refer(a: Artifact): Reference {
    Reference(a.kind, a.body.version, Identity(a), a.body.size)
  }

  function ReadArtifact(s: Store, ref: Reference): Result<Artifact, StoreError> {
    if (ref.kind, ref.digest) !in s.artifacts then Err(Missing)
    else
      var text := s.artifacts[(ref.kind, ref.digest)];
      if Size(text) > MAX_ARTIFACT_BYTES then Err(Missing)
      else if Size(text) != ref.size then Err(SizeMismatch)
      else match Decode(ref.kind, text)
        case None => Err(SchemaInvalid)
        case Some(a) =>
          (match Prepare(ref.kind, a)
           case Err(e) => Err(e)
           case Ok(identity) =>
             if text != Canonical(a) then Err(NotCanonical)
             else if identity != ref.digest || a.body.version != ref.version then Err(IntegrityMismatch)
             else Ok(a))
  }

  /** A file that a reference to `a` leads to. */
  predicate Filed(s: Store, a: Artifact) {
    (a.kind, Identity(a)) in s.artifacts && s.artifacts[(a.kind, Identity(a))] == Canonical(a)
  }

  /** A read returns `a` exactly when the reference is `a`'s own and its file holds `a`, valid and signed. */
  lemma ReadsExactly(s: Store, ref: Reference, a: Artifact)
    ensures ReadArtifact(s, ref) == Ok(a) <==>
              && ref == Refer(a) && Filed(s, a) && SchemaValid(a) && Prepare(a.kind, a).Ok?
              && a.body.size <= 4 * 1024 * 1024
  {}

  /** The name of a prepared artifact fixes the artifact. */
  lemma IdentityDetermines(a: Artifact, b: Artifact)
    requires Prepare(a.kind, a).Ok? && Prepare(b.kind, b).Ok?
    requires a.kind == b.kind && Identity(a) == Identity(b)
    ensures a == b
  {}

  /**
   * An artifact is given a name exactly when it is of the kind asked for, profiled artifacts and staging evidence
   * are valid, and a kind that carries its own digest carries the right one. Its name is then that digest,
   * and for the other kinds the digest of its text.
   */
  lemma PreparesExactly(kind: Kind, a: Artifact)
    ensures Prepare(kind, a).Ok? <==>
              && a.kind == kind
              && (SchemaValid(a) ||
                  kind !in {ProfiledDeploymentPlan, ProfiledComplianceRecord, ProfiledPromotion, ProfiledChangeRecord,
                            StagingEvidence})
              && (a.claimed == OfArtifact(kind, a.body) ||
                  kind !in {DeploymentPlan, FleetDeploymentPlan, SnmpProvisioningPlan, PlanAssuranceRecord,
                            DeploymentPromotionManifest, ProfiledDeploymentPlan, ProfiledComplianceRecord,
                            ProfiledPromotion})
    ensures Prepare(kind, a).Ok? ==>
              Prepare(kind, a).value ==
                if kind in {StagingEvidence, ChangeRecord, FleetChangeRecord, SnmpProvisioningRecord,
                            ProfiledChangeRecord} then OfText(Canonical(a)) else OfArtifact(kind, a.body)
  {}

  // ---------------------------------------------------------------- records

  predicate AllRead(s: Store, refs: seq<Reference>) {
    forall i | 0 <= i < |refs| :: ReadArtifact(s, refs[i]).Ok?
  }

  predicate Signed(r: Record) { r.digest == OfRecord(r.body) }

  function ReadRecord(s: Store, id: nat): Result<Record, StoreError> {
    if id !in s.records then Err(Missing)
    else match s.records[id]
      case Alien(_) => Err(SchemaInvalid)
      case Written(r) =>
        if r.body.size > MAX_RECORD_BYTES then Err(Missing)
        else if !r.body.valid then Err(SchemaInvalid)
        else if r.body.id != id || !Signed(r) then Err(IntegrityMismatch)
        else if !AllRead(s, r.body.refs) then Err(ReferenceRejected)
        else Ok(r)
  }

  /** What `persist_record` checks before it publishes; the record is validated again from its own text. */
  function AdmitRecord(s: Store, r: Record): Result<(), StoreError> {
    if !r.body.valid then Err(SchemaInvalid)
    else if !Signed(r) then Err(DigestInvalid)
    else if r.body.size > MAX_RECORD_BYTES then Err(TooLarge)
    else if !AllRead(s, r.body.refs) then Err(ReferenceRejected)
    else Ok(())
  }

  /** A record is admitted exactly when it is valid, signed, within 256 KiB, and refers to sound artifacts only. */
  lemma AdmitsRecordExactly(s: Store, r: Record)
    ensures AdmitRecord(s, r).Ok? <==>
              && r.body.valid && r.digest == OfRecord(r.body) && r.body.size <= 256 * 1024
              && forall ref | ref in r.body.refs :: exists a :: ref == Refer(a) && Sound(s, a)
  {
    forall i | 0 <= i < |r.body.refs|
      ensures ReadArtifact(s, r.body.refs[i]).Ok? <==> exists a :: r.body.refs[i] == Refer(a) && Sound(s, a)
    {
      ReferenceReadsExactly(s, r.body.refs[i]);
    }
    if forall ref | ref in r.body.refs :: exists a :: ref == Refer(a) && Sound(s, a) {
      forall i | 0 <= i < |r.body.refs| ensures ReadArtifact(s, r.body.refs[i]).Ok? {
        assert r.body.refs[i] in r.body.refs;
      }
    }
  }

  lemma ReferenceReadsExactly(s: Store, ref: Reference)
    ensures ReadArtifact(s, ref).Ok? <==> exists a :: ref == Refer(a) && Sound(s, a)
  {
    if ReadArtifact(s, ref).Ok? { ReadIsSound(s, ref); }
    forall a | ref == Refer(a) && Sound(s, a) ensures ReadArtifact(s, ref).Ok? { SoundReads(s, a); }
  }

  /** And reads exactly when it is the one filed under its identity and would be admitted. */
  lemma ReadsRecordExactly(s: Store, id: nat, r: Record)
    ensures ReadRecord(s, id) == Ok(r) <==>
              id in s.records && s.records[id] == Written(r) && r.body.id == id && AdmitRecord(s, r).Ok?
  {}

  // ---------------------------------------------------------------- envelopes

  function Kinds(delivery: Delivery): seq<Kind> {
    if delivery == Compliance then [ProfiledComplianceRecord]
    else [ProfiledChangeRecord, ProfiledDeploymentPlan, ProfiledPromotion]
  }

  predicate RightFamily(e: EnvelopeBody) {
    && |e.refs| == |Kinds(e.delivery)|
    && forall i | 0 <= i < |e.refs| :: e.refs[i].kind == Kinds(e.delivery)[i] && e.refs[i].version == 2
  }

  predicate ValidEnvelope(e: Envelope) {
    && RightFamily(e.body)
    && e.digest == OfEnvelope(e.body)
    && match e.body.delivery
       case Executed =>
         && e.body.outcome != Compliant && e.body.assurance.Some?
         && e.body.promotionBytes.Some? && e.body.executionBytes.Some?
         && e.body.planning == e.body.refs[1].digest
         && e.body.authorization == Some(e.body.refs[2].digest)
       case Compliance =>
         && e.body.outcome == Compliant && e.body.assurance == None && e.body.authorization == None
         && e.body.promotionBytes == None && e.body.executionBytes == None
         && e.body.planning == e.body.refs[0].digest
  }

  function ByteDigest(e: Envelope, kind: Kind): Digest
    requires ValidEnvelope(e)
  {
    if kind == ProfiledChangeRecord && e.body.delivery == Executed then e.body.executionBytes.value
    else if kind == ProfiledPromotion && e.body.delivery == Executed then e.body.promotionBytes.value
    else e.body.planningBytes
  }

  /** One reference of an envelope, and the original bytes offered for it. */
  predicate EvidenceReads(s: Store, e: Envelope, i: nat, raw: map<Kind, Text>)
    requires ValidEnvelope(e) && i < |e.body.refs|
  {
    var ref := e.body.refs[i];
    && ReadArtifact(s, ref).Ok?
    && ref.kind in raw
    && 0 < Size(raw[ref.kind]) <= MAX_ARTIFACT_BYTES
    && OfText(raw[ref.kind]) == ByteDigest(e, ref.kind)
    && Decode(ref.kind, raw[ref.kind]) == Some(ReadArtifact(s, ref).value)
  }

  /** The cross-artifact checks, over the artifacts the bytes decode to. */
  predicate Correlates(e: Envelope, raw: map<Kind, Text>)
    requires ValidEnvelope(e)
    requires forall k | k in Kinds(e.body.delivery) :: k in raw && Decode(k, raw[k]).Some?
  {
    var planKind := if e.body.delivery == Executed then ProfiledDeploymentPlan else ProfiledComplianceRecord;
    var plan := Decode(planKind, raw[planKind]).value;
    && plan.body.fields.change == e.body.change && plan.body.fields.device == e.body.device
    && plan.body.fields.interface == e.body.interface && plan.body.fields.source == e.body.source
    && plan.body.fields.credential == e.body.credential
    && plan.claimed == e.body.planning
    && (e.body.delivery == Executed ==>
          var promotion := Decode(ProfiledPromotion, raw[ProfiledPromotion]).value;
          var execution := Decode(ProfiledChangeRecord, raw[ProfiledChangeRecord]).value;
          var p := promotion.body.fields;
          && p.build == e.body.build && p.commit == e.body.commit
          && p.promoted == e.body.change && p.onDevice == e.body.device
          && p.onTarget == plan.body.fields.target
          && p.plan == plan.claimed && p.planBytes == e.body.planningBytes
          && promotion.claimed == e.body.authorization.value
          && p.assurance == e.body.assurance.value
          && execution.body.fields.executed == plan.claimed
          && execution.body.fields.outcome == e.body.outcome)
  }

  predicate VerifyReferences(s: Store, e: Envelope, raw: map<Kind, Text>)
    requires ValidEnvelope(e)
  {
    && raw.Keys == Elements(Kinds(e.body.delivery))
    && (forall i | 0 <= i < |e.body.refs| :: EvidenceReads(s, e, i, raw))
    && (forall k | k in Kinds(e.body.delivery) :: k in raw && Decode(k, raw[k]).Some?)
    && Correlates(e, raw)
  }

  predicate HasOriginal(s: Store, kind: Kind, raw: Text) {
    (kind, OfText(raw)) in s.originals && s.originals[(kind, OfText(raw))] == raw
  }

  predicate OriginalsFiled(s: Store, e: Envelope) requires ValidEnvelope(e) {
    forall k | k in Kinds(e.body.delivery) :: (k, ByteDigest(e, k)) in s.originals
  }

  function Originals(s: Store, e: Envelope): (raw: map<Kind, Text>)
    requires ValidEnvelope(e) && OriginalsFiled(s, e)
    ensures raw.Keys == Elements(Kinds(e.body.delivery))
  {
    map k | k in Kinds(e.body.delivery) :: s.originals[(k, ByteDigest(e, k))]
  }

  function ReadEnvelope(s: Store, id: nat): Result<Envelope, StoreError> {
    if id !in s.envelopes then Err(Missing)
    else match s.envelopes[id]
      case Alien(_) => Err(SchemaInvalid)
      case Written(e) =>
        if e.body.size > MAX_RECORD_BYTES then Err(Missing)
        else if !ValidEnvelope(e) then Err(SchemaInvalid)
        else if e.body.id != id then Err(IntegrityMismatch)
        else if !OriginalsFiled(s, e) then Err(Missing)
        else if !VerifyReferences(s, e, Originals(s, e)) then Err(ReferenceRejected)
        else Ok(e)
  }

  function AdmitEnvelope(s: Store, e: Envelope, raw: map<Kind, Text>): Result<(), StoreError> {
    if !ValidEnvelope(e) then Err(SchemaInvalid)
    else if e.body.size > MAX_RECORD_BYTES then Err(TooLarge)
    else if !VerifyReferences(s, e, raw) then Err(ReferenceRejected)
    else Ok(())
  }

  // ---------------------------------------------------------------- what an admitted envelope says

  /** The artifact is filed, valid, signed and within bounds, so that its own reference reads as it. */
  predicate Sound(s: Store, a: Artifact) {
    Filed(s, a) && a.body.valid && SchemaValid(a) && Prepare(a.kind, a).Ok? && a.body.size <= 4 * 1024 * 1024
  }

  /** The original bytes decode to the artifact and have this digest. */
  predicate Original(raw: map<Kind, Text>, a: Artifact, digest: Digest) {
    && a.kind in raw && 0 < Size(raw[a.kind]) <= 4 * 1024 * 1024
    && Decode(a.kind, raw[a.kind]) == Some(a) && OfText(raw[a.kind]) == digest
  }

  /** The plan is for the envelope's change, device, interface and credential. */
  predicate PlanAgrees(e: EnvelopeBody, plan: Artifact) {
    && plan.body.fields.Planning?
    && plan.body.fields.change == e.change && plan.body.fields.device == e.device
    && plan.body.fields.interface == e.interface
    && plan.body.fields.source == e.source && plan.body.fields.credential == e.credential
    && plan.claimed == e.planning
  }

  /** The promotion is of this plan, by its digest and by that of its bytes, on this device and its target. */
  predicate PromotionAgrees(e: EnvelopeBody, plan: Artifact, promotion: Artifact) {
    && plan.body.fields.Planning? && promotion.body.fields.Promotion?
    && promotion.body.fields.build == e.build && promotion.body.fields.commit == e.commit
    && promotion.body.fields.promoted == e.change
    && promotion.body.fields.onDevice == e.device && promotion.body.fields.onTarget == plan.body.fields.target
    && promotion.body.fields.plan == plan.claimed && promotion.body.fields.planBytes == e.planningBytes
    && Some(promotion.claimed) == e.authorization && Some(promotion.body.fields.assurance) == e.assurance
  }

  /** The envelope of an execution, with these three artifacts in this order. */
  predicate ExecutionEnvelope(e: Envelope, record: Artifact, plan: Artifact, promotion: Artifact) {
    && e.digest == OfEnvelope(e.body) && e.body.size <= 256 * 1024
    && e.body.delivery == Executed && e.body.outcome != Compliant
    && record.kind == ProfiledChangeRecord && plan.kind == ProfiledDeploymentPlan && promotion.kind == ProfiledPromotion
    && record.body.version == 2 && plan.body.version == 2 && promotion.body.version == 2
    && e.body.refs == [Refer(record), Refer(plan), Refer(promotion)]
  }

  /** All three are filed and sound, and their original bytes are at hand under the envelope's digests. */
  predicate ExecutionFiles(s: Store, e: EnvelopeBody, raw: map<Kind, Text>, record: Artifact, plan: Artifact,
                           promotion: Artifact)
  {
    && Sound(s, record) && Sound(s, plan) && Sound(s, promotion)
    && raw.Keys == {ProfiledChangeRecord, ProfiledDeploymentPlan, ProfiledPromotion}
    && e.executionBytes.Some? && Original(raw, record, e.executionBytes.value)
    && Original(raw, plan, e.planningBytes)
    && e.promotionBytes.Some? && Original(raw, promotion, e.promotionBytes.value)
  }

  /** And they agree with the envelope and with each other. */
  predicate ExecutionAgrees(e: EnvelopeBody, record: Artifact, plan: Artifact, promotion: Artifact) {
    && PlanAgrees(e, plan) && PromotionAgrees(e, plan, promotion)
    && record.body.fields.Execution?
    && record.body.fields.executed == plan.claimed && record.body.fields.outcome == e.outcome
  }

  /** Everything an admitted envelope of an execution says, of these three artifacts. */
  predicate AdmittedExecution(s: Store, e: Envelope, raw: map<Kind, Text>, record: Artifact, plan: Artifact,
                              promotion: Artifact)
  {
    && ExecutionEnvelope(e, record, plan, promotion)
    && ExecutionFiles(s, e.body, raw, record, plan, promotion)
    && ExecutionAgrees(e.body, record, plan, promotion)
  }

  /** And of a compliance, of its one artifact: no authority, no assurance, no outcome but compliant. */
  predicate AdmittedCompliance(s: Store, e: Envelope, raw: map<Kind, Text>, plan: Artifact) {
    && e.digest == OfEnvelope(e.body) && e.body.size <= 256 * 1024
    && e.body.delivery == Compliance && e.body.outcome == Compliant
    && e.body.authorization == None && e.body.assurance == None
    && e.body.promotionBytes == None && e.body.executionBytes == None
    && plan.kind == ProfiledComplianceRecord && plan.body.version == 2 && Sound(s, plan)
    && e.body.refs == [Refer(plan)]
    && raw.Keys == {ProfiledComplianceRecord} && Original(raw, plan, e.body.planningBytes)
    && PlanAgrees(e.body, plan)
  }

  lemma ReadIsSound(s: Store, ref: Reference)
    requires ReadArtifact(s, ref).Ok?
    ensures var a := ReadArtifact(s, ref).value; ref == Refer(a) && Sound(s, a)
  {
    ReadsExactly(s, ref, ReadArtifact(s, ref).value);
  }

  lemma SoundReads(s: Store, a: Artifact)
    requires Sound(s, a)
    ensures ReadArtifact(s, Refer(a)) == Ok(a)
  {
    ReadsExactly(s, Refer(a), a);
  }

  lemma ExecutionIsValid(s: Store, e: Envelope, raw: map<Kind, Text>, record: Artifact, plan: Artifact,
                         promotion: Artifact)
    requires AdmittedExecution(s, e, raw, record, plan, promotion)
    ensures ValidEnvelope(e)
    ensures forall k | k in Kinds(Executed) :: k in raw && Decode(k, raw[k]).Some?
    ensures Correlates(e, raw)
  {}

  lemma ExecutionIsAdmitted(s: Store, e: Envelope, raw: map<Kind, Text>, record: Artifact, plan: Artifact,
                            promotion: Artifact)
    requires AdmittedExecution(s, e, raw, record, plan, promotion)
    ensures AdmitEnvelope(s, e, raw).Ok?
  {
    ThreeKinds();
    ExecutionIsValid(s, e, raw, record, plan, promotion);
    SoundEvidence(s, e, raw, 0, record);
    SoundEvidence(s, e, raw, 1, plan);
    SoundEvidence(s, e, raw, 2, promotion);
  }

  lemma SoundEvidence(s: Store, e: Envelope, raw: map<Kind, Text>, i: nat, a: Artifact)
    requires ValidEnvelope(e) && i < |e.body.refs| && e.body.refs[i] == Refer(a)
    requires Sound(s, a) && Original(raw, a, ByteDigest(e, a.kind))
    ensures EvidenceReads(s, e, i, raw)
  {
    SoundReads(s, a);
  }

  lemma EvidenceIsSound(s: Store, e: Envelope, raw: map<Kind, Text>, i: nat) returns (a: Artifact)
    requires ValidEnvelope(e) && i < |e.body.refs| && EvidenceReads(s, e, i, raw)
    ensures IsEvidence(s, e, raw, i, a)
  {
    a := ReadArtifact(s, e.body.refs[i]).value;
    ReadIsSound(s, e.body.refs[i]);
  }

  predicate Decodes(raw: map<Kind, Text>, a: Artifact, kind: Kind) {
    kind in raw && Decode(kind, raw[kind]) == Some(a)
  }

  lemma CorrelatedAgree(e: Envelope, raw: map<Kind, Text>, record: Artifact, plan: Artifact, promotion: Artifact)
    requires ValidEnvelope(e) && e.body.delivery == Executed
    requires Decodes(raw, record, ProfiledChangeRecord) && Decodes(raw, plan, ProfiledDeploymentPlan)
    requires Decodes(raw, promotion, ProfiledPromotion)
    requires (forall k | k in Kinds(Executed) :: k in raw && Decode(k, raw[k]).Some?) && Correlates(e, raw)
    ensures ExecutionAgrees(e.body, record, plan, promotion)
  {}

  /** Evidence number `i` of the envelope is this artifact, with its original bytes. */
  predicate IsEvidence(s: Store, e: Envelope, raw: map<Kind, Text>, i: nat, a: Artifact)
    requires ValidEnvelope(e) && i < |e.body.refs|
  {
    && e.body.refs[i] == Refer(a) && Sound(s, a) && a.body.version == 2
    && a.kind == Kinds(e.body.delivery)[i] && Original(raw, a, ByteDigest(e, a.kind))
  }

  lemma PartsAreExecution(s: Store, e: Envelope, raw: map<Kind, Text>, record: Artifact, plan: Artifact,
                          promotion: Artifact)
    requires ValidEnvelope(e) && e.body.delivery == Executed && e.body.size <= MAX_RECORD_BYTES
    requires IsEvidence(s, e, raw, 0, record) && IsEvidence(s, e, raw, 1, plan) && IsEvidence(s, e, raw, 2, promotion)
    requires raw.Keys == Elements(Kinds(Executed))
    ensures ExecutionEnvelope(e, record, plan, promotion) && ExecutionFiles(s, e.body, raw, record, plan, promotion)
  {
    ThreeKinds();
    assert e.body.refs == [Refer(record), Refer(plan), Refer(promotion)];
  }

  lemma AdmittedIsExecution(s: Store, e: Envelope, raw: map<Kind, Text>)
    returns (record: Artifact, plan: Artifact, promotion: Artifact)
    requires AdmitEnvelope(s, e, raw).Ok? && e.body.delivery == Executed
    ensures AdmittedExecution(s, e, raw, record, plan, promotion)
  {
    record := EvidenceIsSound(s, e, raw, 0);
    plan := EvidenceIsSound(s, e, raw, 1);
    promotion := EvidenceIsSound(s, e, raw, 2);
    PartsAreExecution(s, e, raw, record, plan, promotion);
    CorrelatedAgree(e, raw, record, plan, promotion);
  }

  lemma ThreeKinds()
    ensures Elements(Kinds(Executed)) == {ProfiledChangeRecord, ProfiledDeploymentPlan, ProfiledPromotion}
  {}

  /** The envelope of an execution is admitted exactly when there are a record, a plan and a promotion that agree. */
  lemma AdmitsExecutionExactly(s: Store, e: Envelope, raw: map<Kind, Text>)
    ensures AdmitEnvelope(s, e, raw).Ok? && e.body.delivery == Executed <==>
              exists record, plan, promotion :: AdmittedExecution(s, e, raw, record, plan, promotion)
  {
    if AdmitEnvelope(s, e, raw).Ok? && e.body.delivery == Executed {
      var record, plan, promotion := AdmittedIsExecution(s, e, raw);
    }
    forall record, plan, promotion | AdmittedExecution(s, e, raw, record, plan, promotion)
      ensures AdmitEnvelope(s, e, raw).Ok?
    {
      ExecutionIsAdmitted(s, e, raw, record, plan, promotion);
    }
  }

  lemma ComplianceIsAdmitted(s: Store, e: Envelope, raw: map<Kind, Text>, plan: Artifact)
    requires AdmittedCompliance(s, e, raw, plan)
    ensures AdmitEnvelope(s, e, raw).Ok?
  {
    SoundReads(s, plan);
    assert ValidEnvelope(e);
    assert EvidenceReads(s, e, 0, raw);
    assert Elements(Kinds(Compliance)) == raw.Keys;
  }

  /** The envelope of a compliance is admitted exactly when there is a compliance record that agrees. */
  lemma AdmitsComplianceExactly(s: Store, e: Envelope, raw: map<Kind, Text>)
    ensures AdmitEnvelope(s, e, raw).Ok? && e.body.delivery == Compliance <==>
              exists plan :: AdmittedCompliance(s, e, raw, plan)
  {
    if AdmitEnvelope(s, e, raw).Ok? && e.body.delivery == Compliance {
      var plan := EvidenceIsSound(s, e, raw, 0);
      assert raw.Keys == {ProfiledComplianceRecord};
      assert e.body.refs == [Refer(plan)];
      assert AdmittedCompliance(s, e, raw, plan);
    }
    forall plan | AdmittedCompliance(s, e, raw, plan) ensures AdmitEnvelope(s, e, raw).Ok? {
      ComplianceIsAdmitted(s, e, raw, plan);
    }
  }

  /** What reads back is what is filed under its own name and would be admitted with the bytes filed for it. */
  lemma ReadsEnvelopeExactly(s: Store, id: nat, e: Envelope)
    ensures ReadEnvelope(s, id) == Ok(e) <==>
              && id in s.envelopes && s.envelopes[id] == Written(e) && e.body.id == id
              && ValidEnvelope(e) && OriginalsFiled(s, e) && AdmitEnvelope(s, e, Originals(s, e)).Ok?
  {}
}
