/**
 * Acceptance evidence, accepted-state references, chain records and the D0 comparisons.
 *
 * A digest is the one-to-one image of the exact content it is taken over, so it is modelled as
 * that content under a constructor. `OtherDigest` stands for every well-formed digest whose
 * preimage this model does not look at.
 */
module ManagedState {
  import opened Sequences
  import opened JsonTrees

  datatype Vertical = RoutedUnderlay | Ospf | Vlan | Acl

  datatype Envelope = Envelope(vertical: Vertical, scope: nat)

  datatype Snapshot = Snapshot(vertical: Vertical, envelope: Envelope, payload: Json)
  {
    predicate Valid() { envelope.vertical == vertical }

    function Digest(): Digest { StateDigest(this) }
  }

  datatype Digest =
    | StateDigest(state: Snapshot)
    | EvidenceDigest(evidence: EvidenceBody)
    | RecordDigest(record: RecordBody)
    | OtherDigest(id: nat)

  datatype Mode = InitialAdoption | PostWriteValidated

  datatype Outcome =
    | InSync | DriftDetected
    | NoChange | ChangeProposed
    | Converged | PostValidationFailed

  datatype Comparison = Comparison(
    vertical: Vertical, envelope: Envelope, left: Digest, right: Digest, outcome: Outcome)
  {
    predicate Valid() { envelope.vertical == vertical }
  }

  /** The canonical text "managed-state:acceptance:<vertical>:<digest>". */
  datatype Identity = Identity(vertical: Vertical, digest: Digest)

  datatype Reference = Reference(
    envelope: Envelope, stateDigest: Digest, commit: nat, identity: Identity, evidenceDigest: Digest)

  datatype EvidenceBody = EvidenceBody(
    mode: Mode, acceptedAt: int, isUtc: bool, vertical: Vertical, envelope: Envelope,
    state: Snapshot, stateDigest: Digest, commit: nat, observation: Digest,
    previous: Option<Reference>, convergence: Option<Comparison>)

  datatype Evidence = Evidence(body: EvidenceBody, digest: Digest)

  datatype RecordBody = RecordBody(
    vertical: Vertical, generation: int, evidence: Evidence, reference: Reference,
    previousDigest: Option<Digest>)

  datatype Record = Record(body: RecordBody, digest: Digest)

  // ---------------------------------------------------------------- validators

  predicate ValidPrevious(body: EvidenceBody, previous: Reference) {
    && previous.envelope == body.envelope
    && previous.identity == Identity(body.vertical, previous.evidenceDigest)
  }

  predicate ValidConvergence(body: EvidenceBody, c: Comparison) {
    && c.Valid()
    && c.outcome == Converged
    && c.vertical == body.vertical
    && c.envelope == body.envelope
    && c.left == body.stateDigest
    && c.right == body.stateDigest
  }

  predicate ValidEvidence(e: Evidence) {
    && e.body.isUtc
    && e.body.state.Valid()
    && e.body.vertical == e.body.state.vertical
    && e.body.envelope == e.body.state.envelope
    && e.body.stateDigest == e.body.state.Digest()
    && (if e.body.mode == InitialAdoption
        then e.body.previous == None && e.body.convergence == None
        else e.body.previous.Some? && e.body.convergence.Some?)
    && (e.body.previous.Some? ==> ValidPrevious(e.body, e.body.previous.value))
    && (e.body.convergence.Some? ==> ValidConvergence(e.body, e.body.convergence.value))
    && e.digest == EvidenceDigest(e.body)
  }

  function DeriveReference(e: Evidence): Reference {
    Reference(e.body.envelope, e.body.stateDigest, e.body.commit,
              Identity(e.body.vertical, e.digest), e.digest)
  }

  predicate ValidRecord(r: Record) {
    && r.body.generation >= 1
    && ValidEvidence(r.body.evidence)
    && r.body.vertical == r.body.evidence.body.vertical
    && r.body.reference == DeriveReference(r.body.evidence)
    && (if r.body.generation == 1
        then r.body.evidence.body.mode == InitialAdoption && r.body.previousDigest == None
        else r.body.evidence.body.mode == PostWriteValidated && r.body.previousDigest.Some?)
    && r.digest == RecordDigest(r.body)
  }

  // ---------------------------------------------------------------- builders

  function Sign(body: EvidenceBody): Evidence { Evidence(body, EvidenceDigest(body)) }

  /** Construction followed by validation: no evidence leaves a builder unvalidated. */
  function BuildEvidence(body: EvidenceBody): Option<Evidence> {
    if ValidEvidence(Sign(body)) then Some(Sign(body)) else None
  }

  function BuildInitialAdoption(at: int, utc: bool, state: Snapshot, commit: nat, observation: Digest)
    : Option<Evidence>
  {
    BuildEvidence(EvidenceBody(InitialAdoption, at, utc, state.vertical, state.envelope, state,
                               state.Digest(), commit, observation, None, None))
  }

  function BuildPostWrite(at: int, utc: bool, post: Snapshot, desired: Snapshot,
                          previous: Reference, commit: nat, observation: Digest): Option<Evidence>
  {
    match ComparePostWrite(post, desired)
    case None => None
    case Some(comparison) =>
      if comparison.outcome != Converged then None
      else BuildEvidence(
             EvidenceBody(PostWriteValidated, at, utc, post.vertical, post.envelope, post,
                          post.Digest(), commit, observation, Some(previous), Some(comparison)))
  }

  function BuildRecord(e: Evidence, generation: int, previousDigest: Option<Digest>): Option<Record> {
    var body := RecordBody(e.body.vertical, generation, e, DeriveReference(e), previousDigest);
    var r := Record(body, RecordDigest(body));
    if ValidRecord(r) then Some(r) else None
  }

  // ---------------------------------------------------------------- comparisons

  predicate SameSubject(left: Snapshot, right: Snapshot) {
    left.Valid() && right.Valid() && left.vertical == right.vertical && left.envelope == right.envelope
  }

  function Compare(left: Snapshot, right: Snapshot, same: Outcome, different: Outcome): Option<Comparison> {
    if !SameSubject(left, right) then None
    else Some(Comparison(left.vertical, left.envelope, left.Digest(), right.Digest(),
                         if left.Digest() == right.Digest() then same else different))
  }

  /** Two states are compared exactly when both are valid and of one envelope, and agree exactly when equal. */
  lemma ComparesExactly(left: Snapshot, right: Snapshot, same: Outcome, different: Outcome)
    ensures var c := Compare(left, right, same, different);
            && (c.Some? <==>
                  && left.vertical == right.vertical == left.envelope.vertical == right.envelope.vertical
                  && left.envelope.scope == right.envelope.scope)
            && (c.Some? ==>
                  && c.value.vertical == left.vertical && c.value.envelope == left.envelope
                  && c.value.left == StateDigest(left) && c.value.right == StateDigest(right)
                  && (left.payload == right.payload ==> c.value.outcome == same)
                  && (left.payload != right.payload ==> c.value.outcome == different))
  {
    if left.envelope == right.envelope {}
  }

  function ComparePostWrite(post: Snapshot, desired: Snapshot): Option<Comparison> {
    Compare(post, desired, Converged, PostValidationFailed)
  }

  // ---------------------------------------------------------------- chains

  function Generation(r: Record): int { r.body.generation }

  predicate Follows(previous: Record, r: Record) {
    && r.body.previousDigest == Some(previous.digest)
    && r.body.evidence.body.previous == Some(previous.body.reference)
  }

  /** Place `i` holds a valid record of generation i + 1 bound to its predecessor. */
  predicate LinkAt(v: Vertical, chain: seq<Record>, i: nat)
    requires i < |chain|
  {
    && ValidRecord(chain[i])
    && chain[i].body.vertical == v
    && chain[i].body.generation == i + 1
    && (i > 0 ==> Follows(chain[i - 1], chain[i]))
  }

  /** What `_validate_chain` accepts: generations 1..n in order, each bound to its predecessor. */
  predicate IsChain(v: Vertical, chain: seq<Record>) {
    forall i | 0 <= i < |chain| :: LinkAt(v, chain, i)
  }

  /** The facts about places that do not need the evidence. */
  lemma Places(v: Vertical, chain: seq<Record>)
    requires IsChain(v, chain)
    ensures forall i | 0 <= i < |chain| ::
              chain[i].body.generation == i + 1 && chain[i].digest == RecordDigest(chain[i].body)
  {
    forall i | 0 <= i < |chain|
      ensures chain[i].body.generation == i + 1 && chain[i].digest == RecordDigest(chain[i].body)
    {
      assert LinkAt(v, chain, i);
    }
  }

  /** How many acceptances an evidence digest transitively vouches for. */
  function Depth(e: EvidenceBody): nat {
    match e.previous
    case None => 0
    case Some(p) =>
      match p.evidenceDigest
      case EvidenceDigest(body) => 1 + Depth(body)
      case _ => 0
  }

  lemma {:induction false} DepthIsGeneration(v: Vertical, chain: seq<Record>, i: nat)
    requires IsChain(v, chain) && i < |chain|
    ensures Depth(chain[i].body.evidence.body) == i
  {
    assert LinkAt(v, chain, i);
    if i > 0 {
      assert LinkAt(v, chain, i - 1);
      DepthIsGeneration(v, chain, i - 1);
    }
  }

  /** No evidence is accepted twice: its own digest fixes the generation it can hold. */
  lemma EvidenceOccursOnce(v: Vertical, chain: seq<Record>, i: nat, j: nat)
    requires IsChain(v, chain) && i < |chain| && j < |chain|
    requires chain[i].body.evidence == chain[j].body.evidence
    ensures i == j
  {
    DepthIsGeneration(v, chain, i);
    DepthIsGeneration(v, chain, j);
  }

  /**
   * However long the chain: one ownership envelope throughout, and every record after the first
   * proves CONVERGED with both compared digests equal to the digest of its own canonical state.
   */
  lemma {:induction false} ChainProvesConvergence(v: Vertical, chain: seq<Record>, i: nat)
    requires IsChain(v, chain) && i < |chain|
    ensures chain[i].body.evidence.body.envelope == chain[0].body.evidence.body.envelope
    ensures chain[i].body.evidence.body.state.envelope == chain[0].body.evidence.body.envelope
    ensures i == 0 ==> chain[i].body.evidence.body.convergence == None
    ensures i > 0 ==>
              var e := chain[i].body.evidence.body;
              && e.convergence.Some?
              && e.convergence.value.outcome == Converged
              && e.convergence.value.left == e.convergence.value.right == StateDigest(e.state)
              && e.previous == Some(DeriveReference(chain[i - 1].body.evidence))
  {
    assert LinkAt(v, chain, i);
    if i > 0 {
      assert LinkAt(v, chain, i - 1);
      ChainProvesConvergence(v, chain, i - 1);
    }
  }

  /**
   * The builder and the record validator agree: evidence built for the head of a chain exists
   * exactly when the observed state equals the reviewed one on the chain's own envelope, and the
   * record built from it extends the chain.
   */
  lemma PostWriteExtendsChain(v: Vertical, chain: seq<Record>, at: int, utc: bool, post: Snapshot,
                              desired: Snapshot, commit: nat, observation: Digest)
    requires IsChain(v, chain) && chain != []
    ensures var head := chain[|chain| - 1];
            var built := BuildPostWrite(at, utc, post, desired, head.body.reference, commit, observation);
            && (built.Some? <==>
                  && utc && post.Valid() && post == desired
                  && post.envelope == chain[0].body.evidence.body.envelope)
            && (built.Some? ==>
                  var e := built.value.body;
                  && e.acceptedAt == at && e.commit == commit && e.observation == observation
                  && e.state == post && e.previous == Some(head.body.reference) && e.mode == PostWriteValidated)
            && (built.Some? ==>
                  var record := BuildRecord(built.value, |chain| + 1, Some(head.digest));
                  record.Some? && IsChain(v, chain + [record.value]))
  {
    var head := chain[|chain| - 1];
    ChainProvesConvergence(v, chain, |chain| - 1);
    assert LinkAt(v, chain, |chain| - 1);
    assert head.body.evidence.body.envelope.vertical == v;
    var built := BuildPostWrite(at, utc, post, desired, head.body.reference, commit, observation);
    if built.Some? {
      var record := BuildRecord(built.value, |chain| + 1, Some(head.digest));
      AppendKeepsChain(v, chain, record.value);
    }
  }

  lemma AppendKeepsChain(v: Vertical, chain: seq<Record>, r: Record)
    requires IsChain(v, chain)
    requires ValidRecord(r) && r.body.vertical == v && r.body.generation == |chain| + 1
    requires chain != [] ==> Follows(chain[|chain| - 1], r)
    ensures IsChain(v, chain + [r])
  {
    var longer := chain + [r];
    forall i | 0 <= i < |longer| ensures LinkAt(v, longer, i) {
      if i < |chain| { assert LinkAt(v, chain, i); }
    }
  }

  lemma PrefixIsChain(v: Vertical, chain: seq<Record>, n: nat)
    requires IsChain(v, chain) && n <= |chain|
    ensures IsChain(v, chain[..n])
  {
    forall i | 0 <= i < n ensures LinkAt(v, chain[..n], i) { assert LinkAt(v, chain, i); }
  }
}
