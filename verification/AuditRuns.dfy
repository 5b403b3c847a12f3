/**
 * Runs of the audit store: any number of writers, each publishing one file at a time after checks
 * made at some earlier moment. A crash or a failed call leaves whatever was already published.
 */
module AuditRuns {
  import opened Sequences
  import opened AuditFiles

  datatype Act =
    | PublishArtifact(artifact: Artifact)
    | PublishRecord(record: Record)
    | PublishOriginal(kind: Kind, bytes: Text)
    | PublishEnvelope(envelope: Envelope, raw: map<Kind, Text>)

  /** One publication, and the earlier moments at which its writer checked what it relies on. */
  datatype Move = Move(act: Act, checked: nat, stored: nat)

  /** The bytes of the first `n` kinds are filed under their digests. */
  predicate OriginalsStored(s: Store, kinds: seq<Kind>, n: nat, raw: map<Kind, Text>)
    requires n <= |kinds|
  {
    forall i | 0 <= i < n :: kinds[i] in raw && HasOriginal(s, kinds[i], raw[kinds[i]])
  }

  predicate AllStored(s: Store, e: Envelope, raw: map<Kind, Text>) {
    OriginalsStored(s, Kinds(e.body.delivery), |Kinds(e.body.delivery)|, raw)
  }

  /** What its writer saw, at `checked` and at `stored`, before publishing `act`. */
  ghost predicate Admitted(act: Act, checked: Store, stored: Store) {
    match act
    case PublishArtifact(a) => Prepare(a.kind, a).Ok? && a.body.size <= MAX_ARTIFACT_BYTES
    case PublishRecord(r) => AdmitRecord(checked, r).Ok?
    case PublishOriginal(_, _) => true
    case PublishEnvelope(e, raw) =>
      AdmitEnvelope(checked, e, raw).Ok? && AllStored(stored, e, raw)
  }

  predicate Taken(s: Store, act: Act) {
    match act
    case PublishArtifact(a) => (a.kind, Identity(a)) in s.artifacts
    case PublishRecord(r) => r.body.id in s.records
    case PublishOriginal(kind, bytes) => (kind, OfText(bytes)) in s.originals
    case PublishEnvelope(e, _) => e.body.id in s.envelopes
  }

  function Apply(s: Store, act: Act): Store {
    match act
    case PublishArtifact(a) => s.(artifacts := s.artifacts[(a.kind, Identity(a)) := Canonical(a)])
    case PublishRecord(r) => s.(records := s.records[r.body.id := Written(r)])
    case PublishOriginal(kind, bytes) => s.(originals := s.originals[(kind, OfText(bytes)) := bytes])
    case PublishEnvelope(e, _) => s.(envelopes := s.envelopes[e.body.id := Written(e)])
  }

  /** A reader finds what was published; an artifact its own schema rejects is there but unreadable. */
  predicate ReadsBack(s: Store, act: Act) {
    match act
    case PublishArtifact(a) =>
      Filed(s, a) && ReadArtifact(s, Refer(a)) == (if SchemaValid(a) then Ok(a) else Err(SchemaInvalid))
    case PublishRecord(r) => ReadRecord(s, r.body.id) == Ok(r)
    case PublishOriginal(kind, bytes) => HasOriginal(s, kind, bytes)
    case PublishEnvelope(e, _) => ReadEnvelope(s, e.body.id) == Ok(e)
  }

  /** The publication numbered `i`, after checks that may be stale; a name that exists is never linked again. */
  ghost predicate StepAt(states: seq<Store>, moves: seq<Move>, i: nat)
    requires i < |moves| < |states|
  {
    var m := moves[i];
    && m.checked <= i && m.stored <= i
    && Admitted(m.act, states[m.checked], states[m.stored])
    && !Taken(states[i], m.act)
    && states[i + 1] == Apply(states[i], m.act)
  }

  /** Every published record and envelope reads back, with all the evidence it refers to. */
  ghost predicate Closed(s: Store) {
    && (forall id | id in s.records :: ReadRecord(s, id).Ok?)
    && (forall id | id in s.envelopes :: ReadEnvelope(s, id).Ok?)
  }

  ghost predicate IsRun(states: seq<Store>, moves: seq<Move>) {
    && |states| == |moves| + 1 && Closed(states[0])
    && forall i | 0 <= i < |moves| :: StepAt(states, moves, i)
  }

  // ---------------------------------------------------------------- nothing is lost or replaced

  ghost predicate Within<K(!new), V>(m: map<K, V>, n: map<K, V>) {
    forall k | k in m :: k in n && n[k] == m[k]
  }

  ghost predicate Extends(s: Store, t: Store) {
    && Within(s.artifacts, t.artifacts) && Within(s.records, t.records)
    && Within(s.originals, t.originals) && Within(s.envelopes, t.envelopes)
  }

  lemma PublishingExtends(s: Store, act: Act)
    requires !Taken(s, act)
    ensures Extends(s, Apply(s, act))
  {}

  lemma ExtendsTransitively(s: Store, t: Store, u: Store)
    requires Extends(s, t) && Extends(t, u)
    ensures Extends(s, u)
  {}

  lemma MoveExtends(states: seq<Store>, moves: seq<Move>, i: nat)
    requires IsRun(states, moves) && i < |moves|
    ensures Extends(states[i], states[i + 1])
  {
    assert StepAt(states, moves, i);
    PublishingExtends(states[i], moves[i].act);
  }

  lemma {:induction false} RunGrows(states: seq<Store>, moves: seq<Move>, i: nat, j: nat)
    requires IsRun(states, moves) && i <= j < |states|
    ensures Extends(states[i], states[j])
    decreases j
  {
    if i < j {
      RunGrows(states, moves, i, j - 1);
      MoveExtends(states, moves, j - 1);
      ExtendsTransitively(states[i], states[j - 1], states[j]);
    }
  }

  lemma ArtifactStays(s: Store, t: Store, ref: Reference)
    requires Extends(s, t) && ReadArtifact(s, ref).Ok?
    ensures ReadArtifact(t, ref) == ReadArtifact(s, ref)
  {}

  lemma RefsStay(s: Store, t: Store, refs: seq<Reference>)
    requires Extends(s, t) && AllRead(s, refs)
    ensures AllRead(t, refs)
  {
    forall i | 0 <= i < |refs| ensures ReadArtifact(t, refs[i]).Ok? { ArtifactStays(s, t, refs[i]); }
  }

  lemma RecordStays(s: Store, t: Store, id: nat)
    requires Extends(s, t) && ReadRecord(s, id).Ok?
    ensures ReadRecord(t, id) == ReadRecord(s, id)
  {
    RefsStay(s, t, ReadRecord(s, id).value.body.refs);
  }

  lemma ReferencesStay(s: Store, t: Store, e: Envelope, raw: map<Kind, Text>)
    requires Extends(s, t) && ValidEnvelope(e) && VerifyReferences(s, e, raw)
    ensures VerifyReferences(t, e, raw)
  {
    forall i | 0 <= i < |e.body.refs| ensures EvidenceReads(t, e, i, raw) {
      assert EvidenceReads(s, e, i, raw);
      ArtifactStays(s, t, e.body.refs[i]);
    }
  }

  lemma EnvelopeStays(s: Store, t: Store, id: nat)
    requires Extends(s, t) && ReadEnvelope(s, id).Ok?
    ensures ReadEnvelope(t, id) == ReadEnvelope(s, id)
  {
    var e := ReadEnvelope(s, id).value;
    forall k | k in Kinds(e.body.delivery) ensures (k, ByteDigest(e, k)) in t.originals {
      assert (k, ByteDigest(e, k)) in s.originals;
    }
    assert Originals(t, e) == Originals(s, e);
    ReferencesStay(s, t, e, Originals(s, e));
  }

  // ---------------------------------------------------------------- closure

  /** The checks made before publishing are, together with the published file, what a reader checks. */
  lemma PublishedRecordReads(s: Store, t: Store, r: Record)
    requires AdmitRecord(s, r).Ok? && Extends(s, t)
    requires r.body.id in t.records && t.records[r.body.id] == Written(r)
    ensures ReadRecord(t, r.body.id) == Ok(r)
  {
    RefsStay(s, t, r.body.refs);
  }

  lemma StoredStay(s: Store, t: Store, kinds: seq<Kind>, n: nat, raw: map<Kind, Text>)
    requires n <= |kinds| && Extends(s, t) && OriginalsStored(s, kinds, n, raw)
    ensures OriginalsStored(t, kinds, n, raw)
  {
    forall i | 0 <= i < n ensures kinds[i] in raw && HasOriginal(t, kinds[i], raw[kinds[i]]) {
      assert HasOriginal(s, kinds[i], raw[kinds[i]]);
    }
  }

  /** The bytes verified are the bytes a reader of the envelope finds under their digests. */
  lemma OriginalsAreRaw(s: Store, t: Store, e: Envelope, raw: map<Kind, Text>)
    requires ValidEnvelope(e) && VerifyReferences(s, e, raw)
    requires AllStored(t, e, raw)
    ensures OriginalsFiled(t, e) && Originals(t, e) == raw
  {
    forall k | k in Kinds(e.body.delivery)
      ensures k in raw && (k, ByteDigest(e, k)) in t.originals && t.originals[(k, ByteDigest(e, k))] == raw[k]
    {
      var i :| 0 <= i < |Kinds(e.body.delivery)| && Kinds(e.body.delivery)[i] == k;
      assert EvidenceReads(s, e, i, raw);
      assert HasOriginal(t, k, raw[k]);
    }
  }

  lemma PublishedEnvelopeReads(checked: Store, stored: Store, t: Store, e: Envelope, raw: map<Kind, Text>)
    requires AdmitEnvelope(checked, e, raw).Ok? && Extends(checked, t)
    requires AllStored(stored, e, raw) && Extends(stored, t)
    requires e.body.id in t.envelopes && t.envelopes[e.body.id] == Written(e)
    ensures ReadEnvelope(t, e.body.id) == Ok(e)
  {
    StoredStay(stored, t, Kinds(e.body.delivery), |Kinds(e.body.delivery)|, raw);
    OriginalsAreRaw(checked, t, e, raw);
    ReferencesStay(checked, t, e, raw);
  }

  /** Publishing what was admitted earlier gives a file that reads back. */
  lemma AdmittedReads(s: Store, act: Act, checked: Store, stored: Store)
    requires Admitted(act, checked, stored) && !Taken(s, act)
    requires Extends(checked, s) && Extends(stored, s)
    ensures ReadsBack(Apply(s, act), act)
  {
    var t := Apply(s, act);
    PublishingExtends(s, act);
    ExtendsTransitively(checked, s, t);
    ExtendsTransitively(stored, s, t);
    match act
    case PublishRecord(r) => PublishedRecordReads(checked, t, r);
    case PublishEnvelope(e, raw) => PublishedEnvelopeReads(checked, stored, t, e, raw);
    case PublishArtifact(a) => ReadsExactly(t, Refer(a), a);
    case PublishOriginal(_, _) =>
  }

  lemma StepKeepsClosed(s: Store, act: Act)
    requires Closed(s) && !Taken(s, act) && ReadsBack(Apply(s, act), act)
    ensures Closed(Apply(s, act))
  {
    var t := Apply(s, act);
    PublishingExtends(s, act);
    forall id | id in t.records ensures ReadRecord(t, id).Ok? {
      if id in s.records { RecordStays(s, t, id); }
    }
    forall id | id in t.envelopes ensures ReadEnvelope(t, id).Ok? {
      if id in s.envelopes { EnvelopeStays(s, t, id); }
    }
  }

  lemma MoveReads(states: seq<Store>, moves: seq<Move>, i: nat)
    requires IsRun(states, moves) && i < |moves|
    ensures ReadsBack(states[i + 1], moves[i].act)
    ensures Closed(states[i]) ==> Closed(states[i + 1])
  {
    var m := moves[i];
    assert StepAt(states, moves, i);
    RunGrows(states, moves, m.checked, i);
    RunGrows(states, moves, m.stored, i);
    AdmittedReads(states[i], m.act, states[m.checked], states[m.stored]);
    if Closed(states[i]) { StepKeepsClosed(states[i], m.act); }
  }

  /** In every reachable state every published record and envelope has all its evidence. */
  lemma {:induction false} RunIsClosed(states: seq<Store>, moves: seq<Move>, i: nat)
    requires IsRun(states, moves) && i < |states|
    ensures Closed(states[i])
  {
    if i > 0 {
      RunIsClosed(states, moves, i - 1);
      MoveReads(states, moves, i - 1);
    }
  }

  lemma ReadingBackStays(s: Store, t: Store, act: Act)
    requires Extends(s, t) && ReadsBack(s, act)
    ensures ReadsBack(t, act)
  {
    match act
    case PublishRecord(r) => RecordStays(s, t, r.body.id);
    case PublishEnvelope(e, _) => EnvelopeStays(s, t, e.body.id);
    case _ =>
  }

  /** What was published reads back as itself, at once and at every later moment. */
  lemma PublishedForGood(states: seq<Store>, moves: seq<Move>, i: nat, j: nat)
    requires IsRun(states, moves) && i < |moves| && i < j < |states|
    ensures ReadsBack(states[j], moves[i].act)
  {
    RunGrows(states, moves, i + 1, j);
    MoveReads(states, moves, i);
    ReadingBackStays(states[i + 1], states[j], moves[i].act);
  }

  /** Whatever a reader once read it reads again, whatever happens in between. */
  lemma ReadsRepeat(states: seq<Store>, moves: seq<Move>, i: nat, j: nat, ref: Reference, id: nat)
    requires IsRun(states, moves) && i <= j < |states|
    ensures ReadArtifact(states[i], ref).Ok? ==> ReadArtifact(states[j], ref) == ReadArtifact(states[i], ref)
    ensures ReadRecord(states[i], id).Ok? ==> ReadRecord(states[j], id) == ReadRecord(states[i], id)
    ensures ReadEnvelope(states[i], id).Ok? ==> ReadEnvelope(states[j], id) == ReadEnvelope(states[i], id)
  {
    RunGrows(states, moves, i, j);
    if ReadArtifact(states[i], ref).Ok? { ArtifactStays(states[i], states[j], ref); }
    if ReadRecord(states[i], id).Ok? { RecordStays(states[i], states[j], id); }
    if ReadEnvelope(states[i], id).Ok? { EnvelopeStays(states[i], states[j], id); }
  }

  /** What reading a record means: each reference leads to the one valid artifact it names. */
  lemma RecordEvidence(s: Store, id: nat, i: nat)
    requires ReadRecord(s, id).Ok? && i < |ReadRecord(s, id).value.body.refs|
    ensures var ref := ReadRecord(s, id).value.body.refs[i];
            exists a :: ref == Refer(a) && Filed(s, a) && SchemaValid(a) && Prepare(a.kind, a).Ok?
  {
    var ref := ReadRecord(s, id).value.body.refs[i];
    var a := ReadArtifact(s, ref).value;
    ReadsExactly(s, ref, a);
    assert ref == Refer(a);
  }

  /**
   * What reading an envelope means: each kind's artifact is filed, the original bytes are filed under
   * the digest the envelope gives, and those bytes decode to that same artifact. An executed delivery's
   * promotion names the plan by its digest and by the digest of its original bytes.
   */
  lemma EnvelopeEvidence(s: Store, id: nat, i: nat)
    requires ReadEnvelope(s, id).Ok? && i < |ReadEnvelope(s, id).value.body.refs|
    ensures var e := ReadEnvelope(s, id).value; var ref := e.body.refs[i];
            ValidEnvelope(e) && exists a, raw ::
              && ref == Refer(a) && Filed(s, a) && SchemaValid(a)
              && HasOriginal(s, ref.kind, raw) && OfText(raw) == ByteDigest(e, ref.kind)
              && Decode(ref.kind, raw) == Some(a)
              && (a.kind == ProfiledPromotion ==> a.body.fields.plan == e.body.planning &&
                                                  a.body.fields.planBytes == e.body.planningBytes)
  {
    var e := ReadEnvelope(s, id).value;
    var ref, raw := e.body.refs[i], Originals(s, e);
    assert EvidenceReads(s, e, i, raw);
    var a := ReadArtifact(s, ref).value;
    ReadsExactly(s, ref, a);
    assert HasOriginal(s, ref.kind, raw[ref.kind]);
    assert ref == Refer(a) && Decode(ref.kind, raw[ref.kind]) == Some(a);
  }

  /** And altogether: an envelope that reads is one that its artifacts and the bytes filed for it agree with. */
  lemma EnvelopeMeans(s: Store, id: nat)
    requires ReadEnvelope(s, id).Ok?
    ensures var e := ReadEnvelope(s, id).value;
            && s.envelopes[id] == Written(e) && e.body.id == id && ValidEnvelope(e) && OriginalsFiled(s, e)
            && if e.body.delivery == Executed
               then exists record, plan, promotion ::
                      AdmittedExecution(s, e, Originals(s, e), record, plan, promotion)
               else exists plan :: AdmittedCompliance(s, e, Originals(s, e), plan)
  {
    var e := ReadEnvelope(s, id).value;
    ReadsEnvelopeExactly(s, id, e);
    AdmitsExecutionExactly(s, e, Originals(s, e));
    AdmitsComplianceExactly(s, e, Originals(s, e));
  }

  /** One ordinary delivery: a plan for device 2 and target 6, its promotion, and the record of executing it. */
  function SamplePlan(): Artifact {
    var body := Body(2, 10, true, Planning(1, 2, 3, 4, 5, 6));
    Artifact(ProfiledDeploymentPlan, body, OfArtifact(ProfiledDeploymentPlan, body))
  }

  /** The plan as it was downloaded, not in canonical form. */
  function SampleBytes(): Text { Reformatted(SamplePlan(), 0, 12) }

  function SamplePromotion(): Artifact {
    var body := Body(2, 20, true, Promotion(7, 8, 1, 2, 6, SamplePlan().claimed, OfText(SampleBytes()),
                                            Assurance(9, 10, 11)));
    Artifact(ProfiledPromotion, body, OfArtifact(ProfiledPromotion, body))
  }

  function SampleRecord(): Artifact {
    Artifact(ProfiledChangeRecord, Body(2, 30, true, Execution(SamplePlan().claimed, Delivered(0))), OtherDigest(0))
  }

  function SampleRaw(): map<Kind, Text> {
    map[ProfiledChangeRecord := Canonical(SampleRecord()), ProfiledDeploymentPlan := SampleBytes(),
        ProfiledPromotion := Canonical(SamplePromotion())]
  }

  function SampleEnvelope(): Envelope {
    var body := EnvelopeBody(
      0, Executed, 1, 2, 3, 4, 5, 7, 8, Delivered(0),
      [Refer(SampleRecord()), Refer(SamplePlan()), Refer(SamplePromotion())],
      SamplePlan().claimed, OfText(SampleBytes()), Some(OfText(Canonical(SamplePromotion()))),
      Some(OfText(Canonical(SampleRecord()))), Some(SamplePromotion().claimed), Some(Assurance(9, 10, 11)), 40);
    Envelope(body, OfEnvelope(body))
  }

  function Named(a: Artifact): (Kind, Digest) { (a.kind, Identity(a)) }

  function SampleStore(): Store {
    Store(map[Named(SampleRecord()) := Canonical(SampleRecord()), Named(SamplePlan()) := Canonical(SamplePlan()),
              Named(SamplePromotion()) := Canonical(SamplePromotion())],
          map[], map[], map[])
  }

  function KeepAll(s: Store, raw: map<Kind, Text>): Store
    requires {ProfiledChangeRecord, ProfiledDeploymentPlan, ProfiledPromotion} <= raw.Keys
  {
    Apply(Apply(Apply(s, PublishOriginal(ProfiledChangeRecord, raw[ProfiledChangeRecord])),
                PublishOriginal(ProfiledDeploymentPlan, raw[ProfiledDeploymentPlan])),
          PublishOriginal(ProfiledPromotion, raw[ProfiledPromotion]))
  }

  lemma KeptAll(s: Store, e: Envelope, raw: map<Kind, Text>)
    requires {ProfiledChangeRecord, ProfiledDeploymentPlan, ProfiledPromotion} <= raw.Keys
    requires s.originals == map[] && e.body.delivery == Executed
    ensures AllStored(KeepAll(s, raw), e, raw) && Extends(s, KeepAll(s, raw))
    ensures KeepAll(s, raw).envelopes == s.envelopes
  {}

  lemma OnceKeptReads(s: Store, kept: Store, e: Envelope, raw: map<Kind, Text>)
    requires AdmitEnvelope(s, e, raw).Ok? && AllStored(kept, e, raw) && Extends(s, kept)
    requires e.body.id !in kept.envelopes
    ensures ReadEnvelope(Apply(kept, PublishEnvelope(e, raw)), e.body.id) == Ok(e)
  {
    AdmittedReads(kept, PublishEnvelope(e, raw), s, kept);
  }

  lemma KeptReadsBack(s: Store, e: Envelope, raw: map<Kind, Text>)
    requires AdmitEnvelope(s, e, raw).Ok? && e.body.delivery == Executed
    requires {ProfiledChangeRecord, ProfiledDeploymentPlan, ProfiledPromotion} <= raw.Keys
    requires s.originals == map[] && s.envelopes == map[]
    ensures ReadEnvelope(Apply(KeepAll(s, raw), PublishEnvelope(e, raw)), e.body.id) == Ok(e)
  {
    KeptAll(s, e, raw);
    OnceKeptReads(s, KeepAll(s, raw), e, raw);
  }

  lemma SampleIsAdmitted()
    ensures AdmitEnvelope(SampleStore(), SampleEnvelope(), SampleRaw()).Ok?
  {
    assert Sound(SampleStore(), SampleRecord());
    assert Sound(SampleStore(), SamplePlan());
    assert Sound(SampleStore(), SamplePromotion());
    ExecutionIsAdmitted(SampleStore(), SampleEnvelope(), SampleRaw(), SampleRecord(), SamplePlan(), SamplePromotion());
  }

  /**
   * It is admitted, though the plan's bytes are not in canonical form, and it reads back once its bytes and
   * itself are published.
   */
  lemma OrdinaryDeliveryReadsBack()
    ensures SampleEnvelope().body.device != SamplePlan().body.fields.target
    ensures AdmitEnvelope(SampleStore(), SampleEnvelope(), SampleRaw()).Ok?
    ensures var s := KeepAll(SampleStore(), SampleRaw());
            ReadEnvelope(Apply(s, PublishEnvelope(SampleEnvelope(), SampleRaw())), 0) == Ok(SampleEnvelope())
  {
    SampleIsAdmitted();
    KeptReadsBack(SampleStore(), SampleEnvelope(), SampleRaw());
  }

  // ---------------------------------------------------------------- why nothing may be taken back

  /**
   * A directory sync that fails after the link takes the file back. Any record already published on
   * the strength of that file is lost with it, and publishing the same artifact again restores it.
   */
  lemma TakingBackBreaksRecord(s: Store, id: nat, i: nat)
    requires ReadRecord(s, id).Ok? && i < |ReadRecord(s, id).value.body.refs|
    ensures var ref := ReadRecord(s, id).value.body.refs[i];
            var without := s.(artifacts := s.artifacts - {(ref.kind, ref.digest)});
            && ReadRecord(without, id) == Err(ReferenceRejected)
            && ReadArtifact(s, ref).Ok?
            && ReadRecord(Apply(without, PublishArtifact(ReadArtifact(s, ref).value)), id) == ReadRecord(s, id)
  {
    var r := ReadRecord(s, id).value;
    var ref := r.body.refs[i];
    var without := s.(artifacts := s.artifacts - {(ref.kind, ref.digest)});
    assert ReadArtifact(without, ref) == Err(Missing);
    var a := ReadArtifact(s, ref).value;
    ReadsExactly(s, ref, a);
    assert Apply(without, PublishArtifact(a)).artifacts == s.artifacts;
  }

  /** The store after some artifacts and some original bytes were taken back. */
  function Without(s: Store, artifacts: set<(Kind, Digest)>, originals: set<(Kind, Digest)>): Store {
    s.(artifacts := s.artifacts - artifacts, originals := s.originals - originals)
  }

  ghost predicate RefersTo(refs: seq<Reference>, artifacts: set<(Kind, Digest)>) {
    exists i | 0 <= i < |refs| :: (refs[i].kind, refs[i].digest) in artifacts
  }

  ghost predicate ReliesOn(e: Envelope, artifacts: set<(Kind, Digest)>, originals: set<(Kind, Digest)>)
    requires ValidEnvelope(e)
  {
    RefersTo(e.body.refs, artifacts) || exists k | k in Kinds(e.body.delivery) :: (k, ByteDigest(e, k)) in originals
  }

  lemma RecordWithout(s: Store, id: nat, artifacts: set<(Kind, Digest)>, originals: set<(Kind, Digest)>)
    requires ReadRecord(s, id).Ok?
    ensures ReadRecord(Without(s, artifacts, originals), id).Ok? <==>
              !RefersTo(ReadRecord(s, id).value.body.refs, artifacts)
  {
    var refs, t := ReadRecord(s, id).value.body.refs, Without(s, artifacts, originals);
    forall i | 0 <= i < |refs|
      ensures ReadArtifact(t, refs[i]).Ok? <==> (refs[i].kind, refs[i].digest) !in artifacts
    {
      assert ReadArtifact(s, refs[i]).Ok?;
    }
  }

  lemma EvidenceWithout(s: Store, e: Envelope, i: nat, raw: map<Kind, Text>, artifacts: set<(Kind, Digest)>,
                        originals: set<(Kind, Digest)>)
    requires ValidEnvelope(e) && i < |e.body.refs| && EvidenceReads(s, e, i, raw)
    ensures EvidenceReads(Without(s, artifacts, originals), e, i, raw) <==>
              (e.body.refs[i].kind, e.body.refs[i].digest) !in artifacts
  {}

  lemma ReferencesWithout(s: Store, e: Envelope, raw: map<Kind, Text>, artifacts: set<(Kind, Digest)>,
                          originals: set<(Kind, Digest)>)
    requires ValidEnvelope(e) && VerifyReferences(s, e, raw)
    ensures VerifyReferences(Without(s, artifacts, originals), e, raw) <==> !RefersTo(e.body.refs, artifacts)
  {
    forall i | 0 <= i < |e.body.refs|
      ensures EvidenceReads(Without(s, artifacts, originals), e, i, raw) <==>
                (e.body.refs[i].kind, e.body.refs[i].digest) !in artifacts
    {
      EvidenceWithout(s, e, i, raw, artifacts, originals);
    }
  }

  lemma OriginalsWithout(s: Store, e: Envelope, artifacts: set<(Kind, Digest)>, originals: set<(Kind, Digest)>)
    requires ValidEnvelope(e) && OriginalsFiled(s, e)
    ensures var t := Without(s, artifacts, originals);
            && (OriginalsFiled(t, e) <==> forall k | k in Kinds(e.body.delivery) :: (k, ByteDigest(e, k)) !in originals)
            && (OriginalsFiled(t, e) ==> Originals(t, e) == Originals(s, e))
  {
    var t := Without(s, artifacts, originals);
    forall k | k in Kinds(e.body.delivery)
      ensures (k, ByteDigest(e, k)) in t.originals <==> (k, ByteDigest(e, k)) !in originals
    {
      assert (k, ByteDigest(e, k)) in s.originals;
    }
  }

  lemma EnvelopeWithout(s: Store, id: nat, artifacts: set<(Kind, Digest)>, originals: set<(Kind, Digest)>)
    requires ReadEnvelope(s, id).Ok?
    ensures ReadEnvelope(Without(s, artifacts, originals), id).Ok? <==>
              !ReliesOn(ReadEnvelope(s, id).value, artifacts, originals)
  {
    var e := ReadEnvelope(s, id).value;
    OriginalsWithout(s, e, artifacts, originals);
    ReferencesWithout(s, e, Originals(s, e), artifacts, originals);
  }

  ghost predicate RecordRelies(s: Store, id: nat, artifacts: set<(Kind, Digest)>) {
    ReadRecord(s, id).Ok? && RefersTo(ReadRecord(s, id).value.body.refs, artifacts)
  }

  ghost predicate EnvelopeRelies(s: Store, id: nat, artifacts: set<(Kind, Digest)>, originals: set<(Kind, Digest)>) {
    ReadEnvelope(s, id).Ok? && ReliesOn(ReadEnvelope(s, id).value, artifacts, originals)
  }

  /**
   * Whatever artifacts and original bytes are taken back from a closed store, it stays closed if and only if
   * no published record refers to any of them and no published envelope relies on any of them.
   */
  lemma TakingBackExactly(s: Store, artifacts: set<(Kind, Digest)>, originals: set<(Kind, Digest)>)
    requires Closed(s)
    ensures Closed(Without(s, artifacts, originals)) <==>
              && (forall id | id in s.records :: !RecordRelies(s, id, artifacts))
              && (forall id | id in s.envelopes :: !EnvelopeRelies(s, id, artifacts, originals))
  {
    var t := Without(s, artifacts, originals);
    forall id | id in s.records ensures ReadRecord(t, id).Ok? <==> !RecordRelies(s, id, artifacts) {
      RecordWithout(s, id, artifacts, originals);
    }
    forall id | id in s.envelopes
      ensures ReadEnvelope(t, id).Ok? <==> !EnvelopeRelies(s, id, artifacts, originals)
    {
      EnvelopeWithout(s, id, artifacts, originals);
    }
  }

  // ---------------------------------------------------------------- one writer among others

  datatype Publication = Published | Exists | Failed

  /** Between `before` and `now` the writer published nothing but original bytes from `raw`. */
  ghost predicate OnlyOriginals(before: seq<Act>, now: seq<Act>, raw: map<Kind, Text>) {
    && before <= now
    && forall i | |before| <= i < |now| ::
         now[i].PublishOriginal? && now[i].kind in raw && now[i].bytes == raw[now[i].kind]
  }

  lemma OneMoreOriginal(before: seq<Act>, now: seq<Act>, after: seq<Act>, raw: map<Kind, Text>, kind: Kind)
    requires OnlyOriginals(before, now, raw) && kind in raw
    requires after == now || after == now + [PublishOriginal(kind, raw[kind])]
    ensures OnlyOriginals(before, after, raw)
  {}

  /** A file that reads under `a`'s own reference is `a`'s file. */
  lemma SameName(s: Store, a: Artifact, found: Artifact)
    requires Prepare(a.kind, a).Ok? && ReadArtifact(s, Refer(a)) == Ok(found)
    ensures found == a && Filed(s, a)
  {
    ReadsExactly(s, Refer(a), found);
    IdentityDetermines(a, found);
  }

  /** Other bytes are filed under the digest of these. */
  predicate Conflicts(s: Store, kind: Kind, raw: Text) {
    (kind, OfText(raw)) in s.originals && s.originals[(kind, OfText(raw))] != raw
  }

  lemma AdmittedSizes(s: Store, e: Envelope, raw: map<Kind, Text>)
    requires AdmitEnvelope(s, e, raw).Ok?
    ensures forall k | k in Kinds(e.body.delivery) :: k in raw && Size(raw[k]) <= MAX_ARTIFACT_BYTES
  {
    forall k | k in Kinds(e.body.delivery) ensures k in raw && Size(raw[k]) <= MAX_ARTIFACT_BYTES {
      var i :| 0 <= i < |Kinds(e.body.delivery)| && Kinds(e.body.delivery)[i] == k;
      assert EvidenceReads(s, e, i, raw);
    }
  }

  /** One writer's handle on the directory; `own` is the record of what this writer published. */
  class AuditStore {
    const writable: bool
    var store: Store
    ghost var own: seq<Act>

    constructor (writable: bool)
      ensures Closed(store) && this.writable == writable && own == []
    {
      this.writable := writable;
      store := Store(map[], map[], map[], map[]);
      own := [];
    }

    /** Linking one prepared file into place; a failure before the link leaves nothing. */
    method PublishNew(act: Act, mine: bool, fails: bool, ghost checked: Store, ghost stored: Store)
      returns (outcome: Publication)
      requires Closed(store) && Admitted(act, checked, stored) && Extends(checked, store) && Extends(stored, store)
      modifies `store, `own
      ensures Closed(store) && Extends(old(store), store)
      ensures store == if outcome == Published then Apply(old(store), act) else old(store)
      ensures own == old(own) + if outcome == Published && mine then [act] else []
      ensures outcome == Published ==> ReadsBack(store, act)
      ensures outcome == if fails then Failed else if Taken(old(store), act) then Exists else Published
      ensures outcome == Exists ==> Taken(store, act)
    {
      if fails { return Failed; }
      if Taken(store, act) { return Exists; }
      AdmittedReads(store, act, checked, stored);
      PublishingExtends(store, act);
      StepKeepsClosed(store, act);
      store := Apply(store, act);
      if mine { own := own + [act]; }
      return Published;
    }

    /** Some other writer's publication, or a failure of it. */
    method OneOther()
      requires Closed(store)
      modifies `store, `own
      ensures Closed(store) && Extends(old(store), store) && own == old(own)
    {
      var act: Act, fails: bool := *, *;
      match act {
        case PublishArtifact(a) =>
          if Prepare(a.kind, a).Ok? && a.body.size <= MAX_ARTIFACT_BYTES {
            var _ := PublishNew(act, false, fails, store, store);
          }
        case PublishRecord(r) =>
          if AdmitRecord(store, r).Ok? { var _ := PublishNew(act, false, fails, store, store); }
        case PublishOriginal(_, _) => var _ := PublishNew(act, false, fails, store, store);
        case PublishEnvelope(e, raw) =>
          if AdmitEnvelope(store, e, raw).Ok? && AllStored(store, e, raw) {
            var _ := PublishNew(act, false, fails, store, store);
          }
      }
    }

    /** Any number of publications by other writers. */
    method Others()
      requires Closed(store)
      modifies `store, `own
      ensures Closed(store) && Extends(old(store), store) && own == old(own)
    {
      var n :| 0 <= n;
      for i := 0 to n
        invariant Closed(store) && Extends(old(store), store) && own == old(own)
      {
        ghost var before := store;
        OneOther();
        ExtendsTransitively(old(store), before, store);
      }
    }

    /** Looking whether the name exists, then linking; others may publish before each. */
    method Install(act: Act, fails: bool, ghost checked: Store, ghost stored: Store) returns (outcome: Publication)
      requires Closed(store) && Admitted(act, checked, stored) && Extends(checked, store) && Extends(stored, store)
      modifies `store, `own
      ensures Closed(store) && Extends(old(store), store)
      ensures own == old(own) + if outcome == Published then [act] else []
      ensures outcome == Published ==> ReadsBack(store, act)
      ensures outcome == Exists ==> Taken(store, act)
      ensures Taken(old(store), act) ==> outcome == Exists
      ensures outcome == Failed ==> fails
      ensures fails ==> outcome != Published
    {
      Others();
      if Taken(store, act) { return Exists; }
      Others();
      outcome := PublishNew(act, true, fails, checked, stored);
    }

    /**
     * `persist_artifact`: publish the artifact, or find it already there. On success its file is in
     * place and reads back; on failure this writer published nothing. A prepared artifact within bounds is
     * refused only if a call `fails`, or its name is taken by a file that does not read as it.
     */
    method PersistArtifact(kind: Kind, a: Artifact, fails: bool) returns (res: Result<Reference, StoreError>)
      requires Closed(store)
      modifies `store, `own
      ensures Closed(store) && Extends(old(store), store)
      ensures res.Ok? ==> writable && a.kind == kind && res.value == Refer(a) && ReadsBack(store, PublishArtifact(a))
      ensures res.Ok? ==> own == old(own) || own == old(own) + [PublishArtifact(a)]
      ensures res.Err? ==> own == old(own)
      ensures !writable ==> res == Err(ReadOnly)
      ensures writable && Prepare(kind, a).Err? ==> res == Err(Prepare(kind, a).error)
      ensures writable && Prepare(kind, a).Ok? && a.body.size <= 4 * 1024 * 1024 && res.Err? ==>
                fails || ((a.kind, Identity(a)) in store.artifacts && ReadArtifact(store, Refer(a)).Err?)
    {
      if !writable { return Err(ReadOnly); }
      if Prepare(kind, a).Err? { return Err(Prepare(kind, a).error); }
      if a.body.size > MAX_ARTIFACT_BYTES { return Err(TooLarge); }
      var published := Install(PublishArtifact(a), fails, store, store);
      if published == Failed { return Err(PublicationFailed); }
      if published == Exists {
        Others();
        var found := ReadArtifact(store, Refer(a));
        if found.Err? { return Err(found.error); }
        SameName(store, a, found.value);
      }
      return Ok(Refer(a));
    }

    /**
     * `persist_record`. On success the record is this writer's one publication and reads back with all
     * its evidence; on failure this writer published nothing. A record that could be admitted from the start is
     * refused only if a call `fails` or its identity is taken.
     */
    method PersistRecord(r: Record, fails: bool) returns (res: Result<nat, StoreError>)
      requires Closed(store)
      modifies `store, `own
      ensures Closed(store) && Extends(old(store), store)
      ensures res.Ok? ==> writable && res.value == r.body.id && ReadsBack(store, PublishRecord(r))
      ensures own == old(own) + if res.Ok? then [PublishRecord(r)] else []
      ensures r.body.id in old(store).records || !Signed(r) || !writable ==> res.Err?
      ensures writable && AdmitRecord(old(store), r).Ok? && res.Err? ==> fails || r.body.id in store.records
    {
      if !writable { return Err(ReadOnly); }
      Others();
      if AdmitRecord(old(store), r).Ok? { RefsStay(old(store), store, r.body.refs); }
      var admitted := AdmitRecord(store, r);
      if admitted.Err? { return Err(admitted.error); }
      var published := Install(PublishRecord(r), fails, store, store);
      if published == Failed { return Err(PublicationFailed); }
      if published == Exists { return Err(IdentityExists); }
      return Ok(r.body.id);
    }

    /** Publishing one kind's original bytes, or finding exactly those bytes already there. */
    method KeepOriginal(kind: Kind, bytes: Text, fails: bool) returns (error: Option<StoreError>)
      requires Closed(store)
      modifies `store, `own
      ensures Closed(store) && Extends(old(store), store)
      ensures error == None ==> HasOriginal(store, kind, bytes)
      ensures own == old(own) || own == old(own) + [PublishOriginal(kind, bytes)]
      ensures error.Some? ==> fails || Size(bytes) > MAX_ARTIFACT_BYTES || Conflicts(store, kind, bytes)
    {
      var published := Install(PublishOriginal(kind, bytes), fails, store, store);
      if published == Failed { return Some(PublicationFailed); }
      if published == Exists {
        Others();
        if Size(bytes) > MAX_ARTIFACT_BYTES || !HasOriginal(store, kind, bytes) { return Some(BytesConflict); }
      }
      return None;
    }

    method KeepOriginals(kinds: seq<Kind>, raw: map<Kind, Text>, failing: set<Kind>)
      returns (error: Option<StoreError>)
      requires Closed(store) && forall k | k in kinds :: k in raw
      modifies `store, `own
      ensures Closed(store) && Extends(old(store), store)
      ensures error == None ==> OriginalsStored(store, kinds, |kinds|, raw)
      ensures OnlyOriginals(old(own), own, raw)
      ensures error.Some? ==> exists k | k in kinds ::
                k in failing || Size(raw[k]) > MAX_ARTIFACT_BYTES || Conflicts(store, k, raw[k])
    {
      for i := 0 to |kinds|
        invariant Closed(store) && Extends(old(store), store)
        invariant OriginalsStored(store, kinds, i, raw)
        invariant OnlyOriginals(old(own), own, raw)
      {
        ghost var before, own' := store, own;
        error := KeepOriginal(kinds[i], raw[kinds[i]], kinds[i] in failing);
        OneMoreOriginal(old(own), own', own, raw, kinds[i]);
        ExtendsTransitively(old(store), before, store);
        if error.Some? { return; }
        StoredStay(before, store, kinds, i, raw);
      }
      return None;
    }

    /**
     * `persist_profiled_record`. On success the envelope is this writer's last publication and reads
     * back with all its evidence; on failure at most original bytes were left behind. An envelope that could
     * be admitted from the start is refused only if a call fails, its identity is taken, or other bytes are filed
     * under the digest of one of its own.
     */
    method PersistEnvelope(e: Envelope, raw: map<Kind, Text>, failing: set<Kind>, fails: bool)
      returns (res: Result<nat, StoreError>)
      requires Closed(store)
      modifies `store, `own
      ensures Closed(store) && Extends(old(store), store)
      ensures res.Ok? ==> writable && res.value == e.body.id && ReadsBack(store, PublishEnvelope(e, raw))
      ensures res.Ok? ==> own != [] && own[|own| - 1] == PublishEnvelope(e, raw)
                          && OnlyOriginals(old(own), own[..|own| - 1], raw)
      ensures res.Err? ==> OnlyOriginals(old(own), own, raw)
      ensures e.body.id in old(store).envelopes || !ValidEnvelope(e) || !writable ==> res.Err?
      ensures writable && AdmitEnvelope(old(store), e, raw).Ok? && res.Err? ==>
                || fails || e.body.id in store.envelopes
                || exists k | k in raw :: k in failing || Conflicts(store, k, raw[k])
    {
      if !writable { return Err(ReadOnly); }
      Others();
      if AdmitEnvelope(old(store), e, raw).Ok? { ReferencesStay(old(store), store, e, raw); }
      var admitted := AdmitEnvelope(store, e, raw);
      if admitted.Err? { return Err(admitted.error); }
      ghost var checked := store;
      Others();
      if e.body.id in store.envelopes { return Err(IdentityExists); }
      var error := KeepOriginals(Kinds(e.body.delivery), raw, failing);
      if error.Some? {
        AdmittedSizes(checked, e, raw);
        return Err(error.value);
      }
      res := LinkEnvelope(e, raw, fails, checked);
    }

    method LinkEnvelope(e: Envelope, raw: map<Kind, Text>, fails: bool, ghost checked: Store)
      returns (res: Result<nat, StoreError>)
      requires Closed(store) && Extends(checked, store)
      requires AdmitEnvelope(checked, e, raw).Ok? && AllStored(store, e, raw)
      modifies `store, `own
      ensures Closed(store) && Extends(old(store), store)
      ensures res.Ok? ==> res.value == e.body.id && ReadsBack(store, PublishEnvelope(e, raw))
      ensures own == old(own) + if res.Ok? then [PublishEnvelope(e, raw)] else []
      ensures res.Err? ==> fails || e.body.id in store.envelopes
    {
      Others();
      var published := PublishNew(PublishEnvelope(e, raw), true, fails, checked, old(store));
      if published == Failed { return Err(PublicationFailed); }
      if published == Exists { return Err(IdentityExists); }
      return Ok(e.body.id);
    }
  }
}
