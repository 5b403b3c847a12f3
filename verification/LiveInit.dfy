/**
 * Initialising the managed-state store from two independent live reads: four first acceptances are built
 * in a staging directory, checked against a second read, and promoted in one rename that never replaces.
 */
module LiveInit {
  import opened Sequences
  import opened ManagedState
  import opened AcceptanceStore
  import DiffPaths

  const VERTICALS: seq<Vertical> := [RoutedUnderlay, Ospf, Vlan, Acl]

  type Root = map<Vertical, Directory>

  datatype Disk = Disk(final: Option<Root>, staging: Option<Root>)

  /** One vertical's part of a live read: the read event, its projected state, its evidence digest. */
  datatype Reading = Reading(event: nat, state: Snapshot, evidence: Digest)

  datatype Bundle = Bundle(event: nat, readings: map<Vertical, Reading>)

  type States = map<Vertical, Snapshot>

  datatype VerticalResult = VerticalResult(
    vertical: Vertical, continuity: Digest, firstEvidence: Digest, d0: Digest, acceptance: Digest,
    record: Digest, secondEvidence: Digest, second: Digest, observation: Comparison, d1: Digest,
    proposal: Comparison)

  datatype InitError =
    | FinalRootExists | SourceRejected | CollectionFailed | PreAdoptionChange(changed: seq<Mismatch>)
    | StagingFailed | NotIndependent | Drifted | PromotionFailed | RecordsChanged | ComparisonRejected
    | StagingNotRemoved

  datatype Mismatch = Mismatch(vertical: Vertical, paths: seq<DiffPaths.Path>)

  lemma EveryVertical(v: Vertical)
    ensures v in VERTICALS
  {
    match v
    case RoutedUnderlay => assert VERTICALS[0] == v;
    case Ospf => assert VERTICALS[1] == v;
    case Vlan => assert VERTICALS[2] == v;
    case Acl => assert VERTICALS[3] == v;
  }

  ghost predicate ValidStates(states: States) {
    forall v: Vertical :: v in states && states[v].Valid() && states[v].vertical == v
  }

  ghost predicate ValidBundle(b: Bundle) {
    forall v: Vertical :: v in b.readings && b.readings[v].state.Valid() && b.readings[v].state.vertical == v
  }

  /**
   * What the run meets: whether the adoption source is clean, both live reads, whether the staging directory
   * is created, the fault of each acceptance and whether the rename call works.
   */
  datatype Answers = Answers(
    clean: bool, first: Option<Bundle>, created: bool, faults: Vertical -> Fault, second: Option<Bundle>,
    renamed: bool)

  ghost predicate Collected(b: Option<Bundle>) { b.Some? && ValidBundle(b.value) }

  /** Vertical `v` is as expected at both reads, independently read, accepted, and wanted in the same envelope. */
  ghost predicate Initialises(expectation: States, a: Answers, desired: States, v: Vertical)
    requires v in expectation && Collected(a.first) && Collected(a.second)
  {
    var x, y := a.first.value.readings[v], a.second.value.readings[v];
    && a.faults(v) == NoFault
    && x.state == expectation[v] && y.state == expectation[v]
    && x.event != y.event && x.evidence != y.evidence
    && v in desired && desired[v].vertical == v && desired[v].envelope == expectation[v].envelope
  }

  /** The one way for a run to return a result, apart from a final root that is in the way. */
  ghost predicate Succeeds(expectation: States, a: Answers, desired: States)
    requires ValidStates(expectation)
  {
    && a.clean && Collected(a.first) && a.created && Collected(a.second) && a.renamed
    && a.first.value.event != a.second.value.event
    && forall v: Vertical :: Initialises(expectation, a, desired, v)
  }

  // ---------------------------------------------------------------- continuity

  predicate Continuous(expectation: States, now: Bundle, v: Vertical) {
    v in expectation && v in now.readings && expectation[v].Digest() == now.readings[v].state.Digest()
  }

  function MismatchAt(expectation: States, now: Bundle, v: Vertical): Mismatch
    requires v in expectation && v in now.readings
  {
    Mismatch(v, DiffPaths.Report(expectation[v].payload, now.readings[v].state.payload))
  }

  /** The changed verticals among `vs`, in order, each with its reported paths. */
  function Mismatches(expectation: States, now: Bundle, vs: seq<Vertical>): seq<Mismatch>
    requires forall v | v in vs :: v in expectation && v in now.readings
  {
    if vs == [] then []
    else
      var n := |vs| - 1;
      var before := Mismatches(expectation, now, vs[..n]);
      if Continuous(expectation, now, vs[n]) then before
      else before + [MismatchAt(expectation, now, vs[n])]
  }

  ghost predicate Named(ms: seq<Mismatch>, v: Vertical) { exists i | 0 <= i < |ms| :: ms[i].vertical == v }

  lemma NamedByOneMore(ms: seq<Mismatch>, m: Mismatch, v: Vertical)
    ensures Named(ms + [m], v) <==> Named(ms, v) || m.vertical == v
  {
    var more := ms + [m];
    if Named(ms, v) {
      var i :| 0 <= i < |ms| && ms[i].vertical == v;
      assert more[i].vertical == v;
    }
    if m.vertical == v { assert more[|ms|].vertical == v; }
  }

  /** Exactly the changed verticals are named. */
  lemma {:induction false} MismatchesExactly(expectation: States, now: Bundle, vs: seq<Vertical>, v: Vertical)
    requires forall w | w in vs :: w in expectation && w in now.readings
    ensures Named(Mismatches(expectation, now, vs), v) <==> v in vs && !Continuous(expectation, now, v)
  {
    if vs != [] {
      var n := |vs| - 1;
      MismatchesExactly(expectation, now, vs[..n], v);
      assert vs == vs[..n] + [vs[n]];
      if !Continuous(expectation, now, vs[n]) {
        NamedByOneMore(Mismatches(expectation, now, vs[..n]), MismatchAt(expectation, now, vs[n]), v);
      }
    }
  }

  /** Each is named with one to sixteen paths, the report on its two payloads. */
  lemma {:induction false} MismatchPaths(expectation: States, now: Bundle, vs: seq<Vertical>, i: nat)
    requires forall w | w in vs :: w in expectation && w in now.readings
    requires i < |Mismatches(expectation, now, vs)|
    ensures var m := Mismatches(expectation, now, vs)[i];
            && m.vertical in expectation && m.vertical in now.readings && !Continuous(expectation, now, m.vertical)
            && m.paths == DiffPaths.Report(expectation[m.vertical].payload, now.readings[m.vertical].state.payload)
            && 1 <= |m.paths| <= 16
  {
    var n := |vs| - 1;
    assert vs == vs[..n] + [vs[n]];
    if i < |Mismatches(expectation, now, vs[..n])| { MismatchPaths(expectation, now, vs[..n], i); }
  }

  /**
   * `enforce_pre_adoption_continuity`: it passes exactly when no vertical changed, and otherwise names
   * every vertical that did, with the paths at which its payload differs.
   */
  method EnforceContinuity(expectation: States, now: Bundle) returns (changed: seq<Mismatch>)
    requires ValidStates(expectation) && ValidBundle(now)
    ensures changed == [] <==> forall v: Vertical :: Continuous(expectation, now, v)
    ensures changed == [] <==> Unchanged(expectation, now)
    ensures changed == Mismatches(expectation, now, VERTICALS)
  {
    changed := [];
    for i := 0 to |VERTICALS|
      invariant changed == Mismatches(expectation, now, VERTICALS[..i])
    {
      var v := VERTICALS[i];
      assert VERTICALS[..i + 1][..i] == VERTICALS[..i];
      if expectation[v].Digest() == now.readings[v].state.Digest() { continue; }
      var paths := DiffPaths.ManagedDiffPaths(expectation[v].payload, now.readings[v].state.payload);
      changed := changed + [Mismatch(v, paths)];
    }
    assert VERTICALS[..|VERTICALS|] == VERTICALS;
    NoMismatch(expectation, now);
    ContinuousExactly(expectation, now);
  }

  ghost predicate Unchanged(expectation: States, now: Bundle)
    requires ValidStates(expectation) && ValidBundle(now)
  {
    forall v: Vertical :: expectation[v] == now.readings[v].state
  }

  lemma ContinuousExactly(expectation: States, now: Bundle)
    requires ValidStates(expectation) && ValidBundle(now)
    ensures Unchanged(expectation, now) <==> forall v: Vertical :: Continuous(expectation, now, v)
  {
    if forall v: Vertical :: Continuous(expectation, now, v) {
      forall v: Vertical ensures expectation[v] == now.readings[v].state { assert Continuous(expectation, now, v); }
    }
  }

  lemma NoMismatch(expectation: States, now: Bundle)
    requires ValidStates(expectation) && ValidBundle(now)
    ensures Mismatches(expectation, now, VERTICALS) == [] <==> forall v: Vertical :: Continuous(expectation, now, v)
  {
    var found := Mismatches(expectation, now, VERTICALS);
    forall v: Vertical ensures Named(found, v) <==> !Continuous(expectation, now, v) {
      EveryVertical(v);
      MismatchesExactly(expectation, now, VERTICALS, v);
    }
    if found != [] { assert Named(found, found[0].vertical); }
  }

  // ---------------------------------------------------------------- what a promoted root holds

  /** The one record that initial adoption of a reading gives. */
  function Adopted(reading: Reading, at: int, commit: nat): Option<Record> {
    match BuildInitialAdoption(at, true, reading.state, commit, reading.evidence)
    case None => None
    case Some(e) => BuildRecord(e, 1, None)
  }

  /** Vertical `v` of a root holds exactly the one-record chain adopted from the first read. */
  ghost predicate AdoptedAt(root: Root, first: Bundle, at: int, commit: nat, v: Vertical) {
    && v in root && v in first.readings
    && Adopted(first.readings[v], at, commit).Some?
    && var r := Adopted(first.readings[v], at, commit).value;
       && root[v] == map[RecordName(r.digest) := Canonical(r)]
       && ChainOf(v, root[v], [r])
       && r.body.generation == 1 && r.body.evidence.body.mode == InitialAdoption
       && r.body.evidence.body.state == first.readings[v].state
       && r.body.evidence.body.observation == first.readings[v].evidence
       && r.body.evidence.body.acceptedAt == at && r.body.evidence.body.commit == commit
  }

  /** Exactly four one-record chains. */
  ghost predicate FourChains(root: Root, first: Bundle, at: int, commit: nat) {
    forall v: Vertical :: AdoptedAt(root, first, at, commit, v)
  }

  lemma EmptyResolves(v: Vertical)
    ensures ChainOf(v, map[], [])
  {
    assert Files(map[]) == {};
    assert Names([]) == {};
  }

  /** The first acceptance into an empty directory is a generation-one chain by itself. */
  lemma FirstAcceptance(v: Vertical, reading: Reading, at: int, commit: nat)
    requires reading.state.Valid() && reading.state.vertical == v
    ensures Adopted(reading, at, commit).Some?
    ensures var r := Adopted(reading, at, commit).value;
            && BuildInitialAdoption(at, true, reading.state, commit, reading.evidence) == Some(r.body.evidence)
            && ValidEvidence(r.body.evidence) && r.body.vertical == v
            && r.body.generation == 1 && r.body.evidence.body.mode == InitialAdoption
            && r.body.evidence.body.state == reading.state
            && r.body.evidence.body.observation == reading.evidence
            && r.body.evidence.body.acceptedAt == at && r.body.evidence.body.commit == commit
            && Decide([], r.body.evidence) == Append(r)
            && ChainOf(v, map[RecordName(r.digest) := Canonical(r)], [r])
  {
    var r := Adopted(reading, at, commit).value;
    assert LinkAt(v, [r], 0);
    EmptyResolves(v);
    assert [] + [r] == [r];
    PublishAppends(v, map[], [], r);
    assert map[][RecordName(r.digest) := Canonical(r)] == map[RecordName(r.digest) := Canonical(r)];
  }

  // ---------------------------------------------------------------- the steps between the two reads

  /** One live read of all four verticals: exactly a valid answer is accepted. */
  method Collect(read: Option<Bundle>) returns (b: Option<Bundle>)
    ensures b.Some? <==> Collected(read)
    ensures b.Some? ==> b == read
  {
    if read == None { return None; }
    var readings := read.value.readings;
    for i := 0 to |VERTICALS|
      invariant forall v | v in VERTICALS[..i] ::
                  v in readings && readings[v].state.Valid() && readings[v].state.vertical == v
    {
      var v := VERTICALS[i];
      if v !in readings || !readings[v].state.Valid() || readings[v].state.vertical != v { return None; }
      assert VERTICALS[..i + 1] == VERTICALS[..i] + [v];
    }
    forall v: Vertical ensures v in VERTICALS[..|VERTICALS|] { EveryVertical(v); }
    return read;
  }

  predicate IndependentAt(first: Bundle, second: Bundle, v: Vertical) {
    && v in first.readings && v in second.readings
    && first.readings[v].event != second.readings[v].event
    && first.readings[v].evidence != second.readings[v].evidence
  }

  predicate Independent(first: Bundle, second: Bundle) {
    first.event != second.event && forall v | v in VERTICALS :: IndependentAt(first, second, v)
  }

  /** The heads of all four chains, in order; an unreadable or empty chain fails. */
  method ResolveAll(root: Root) returns (heads: Option<seq<Record>>)
    requires forall v: Vertical :: v in root
    ensures heads.Some? ==> |heads.value| == |VERTICALS|
    ensures heads.Some? ==> forall i | 0 <= i < |VERTICALS| :: HeadOf(root, VERTICALS[i], heads.value[i])
    ensures heads == None ==> exists v :: Headless(root, v)
  {
    var found: seq<Record> := [];
    for i := 0 to |VERTICALS|
      invariant |found| == i && forall j | 0 <= j < i :: HeadOf(root, VERTICALS[j], found[j])
    {
      var chain := ManagedStateStore.Records(VERTICALS[i], root[VERTICALS[i]]);
      if chain.Err? || chain.value == [] {
        NoHead(root, VERTICALS[i], chain);
        return None;
      }
      assert ChainOf(VERTICALS[i], root[VERTICALS[i]], chain.value);
      found := found + [chain.value[|chain.value| - 1]];
    }
    return Some(found);
  }

  ghost predicate Headless(root: Root, v: Vertical) {
    v in root && !exists r: Record :: ChainOf(v, root[v], [r])
  }

  lemma NoHead(root: Root, v: Vertical, scanned: Result<seq<Record>, StoreError>)
    requires v in root && (scanned.Err? ==> !Resolves(v, root[v]))
    requires scanned.Ok? ==> scanned.value == [] && ChainOf(v, root[v], [])
    ensures Headless(root, v)
  {
    if r: Record :| ChainOf(v, root[v], [r]) {
      if scanned.Ok? { ChainIsUnique(v, root[v], [], [r]); }
    }
  }

  ghost predicate HeadOf(root: Root, v: Vertical, head: Record) {
    v in root && exists chain: seq<Record> :: ChainOf(v, root[v], chain) && chain != [] && chain[|chain| - 1] == head
  }

  /** In a root of four adopted chains, the heads are exactly the adopted records. */
  lemma HeadIsAdopted(root: Root, first: Bundle, at: int, commit: nat, v: Vertical, head: Record)
    requires AdoptedAt(root, first, at, commit, v) && HeadOf(root, v, head)
    ensures Adopted(first.readings[v], at, commit) == Some(head)
  {
    var r := Adopted(first.readings[v], at, commit).value;
    var chain :| ChainOf(v, root[v], chain) && chain != [] && chain[|chain| - 1] == head;
    ChainIsUnique(v, root[v], chain, [r]);
  }

  /** The comparisons of the accepted states with the others, in order; there are none if one is refused. */
  ghost predicate Compares(heads: seq<Record>, others: States, same: Outcome, different: Outcome,
                           compared: Option<seq<Comparison>>)
    requires |heads| == |VERTICALS| && forall v: Vertical :: v in others
  {
    match compared
    case None =>
      exists i | 0 <= i < |VERTICALS| ::
        Compare(heads[i].body.evidence.body.state, others[VERTICALS[i]], same, different) == None
    case Some(cs) =>
      && |cs| == |VERTICALS|
      && forall i | 0 <= i < |VERTICALS| ::
           Compare(heads[i].body.evidence.body.state, others[VERTICALS[i]], same, different) == Some(cs[i])
  }

  /** Comparing every head's accepted state with another state of its vertical. */
  method CompareAll(heads: seq<Record>, others: States, same: Outcome, different: Outcome)
    returns (compared: Option<seq<Comparison>>)
    requires |heads| == |VERTICALS| && forall v: Vertical :: v in others
    ensures Compares(heads, others, same, different, compared)
  {
    var found: seq<Comparison> := [];
    for i := 0 to |VERTICALS|
      invariant |found| == i
      invariant forall j | 0 <= j < i ::
                  Compare(heads[j].body.evidence.body.state, others[VERTICALS[j]], same, different) == Some(found[j])
    {
      var c := Compare(heads[i].body.evidence.body.state, others[VERTICALS[i]], same, different);
      if c == None { return None; }
      found := found + [c.value];
    }
    return Some(found);
  }

  function StatesOf(b: Bundle): (states: States)
    ensures states.Keys == b.readings.Keys
  {
    map v | v in b.readings :: b.readings[v].state
  }

  /** The line of the run result for one vertical. */
  function ResultLine(v: Vertical, expected: Snapshot, first: Reading, record: Record, second: Reading,
                      observation: Comparison, proposal: Comparison): VerticalResult
  {
    VerticalResult(v, expected.Digest(), first.evidence, record.body.evidence.body.stateDigest,
                   record.body.evidence.digest, record.digest, second.evidence, second.state.Digest(),
                   observation, proposal.right, proposal)
  }

  /**
   * What a returned line proves: the state expected before, the accepted state and the state read
   * again afterwards are one and the same, from two different read events, and it is what the store holds; the
   * proposal says whether the desired state is that state too.
   */
  ghost predicate LineHolds(line: VerticalResult, v: Vertical, expectation: States, first: Bundle, second: Bundle,
                            root: Root, desired: States)
  {
    && v in expectation && v in first.readings && v in second.readings && v in root
    && line.vertical == v
    && line.continuity == expectation[v].Digest()
    && line.second == second.readings[v].state.Digest()
    && line.continuity == line.d0 == line.second
    && line.firstEvidence == first.readings[v].evidence && line.secondEvidence == second.readings[v].evidence
    && line.firstEvidence != line.secondEvidence
    && line.observation.outcome == InSync && line.observation.left == line.observation.right == line.d0
    && v in desired && line.d1 == desired[v].Digest()
    && line.proposal.left == line.d0 && line.proposal.right == line.d1
    && line.proposal.outcome == (if line.d0 == line.d1 then NoChange else ChangeProposed)
    && exists r: Record ::
         && root[v] == map[RecordName(r.digest) := Canonical(r)] && r.digest == line.record
         && r.body.evidence.digest == line.acceptance && r.body.evidence.body.stateDigest == line.d0
  }

  /** The proposal compares the accepted state of the record with the desired one. */
  ghost predicate ProposedAt(r: Record, v: Vertical, desired: States, c: Comparison) {
    && v in desired && c.left == r.body.evidence.body.stateDigest && c.right == desired[v].Digest()
    && c.outcome == (if c.left == c.right then NoChange else ChangeProposed)
  }

  lemma LineOfRun(v: Vertical, expectation: States, first: Bundle, second: Bundle, root: Root, at: int, commit: nat,
                  head: Record, observation: Comparison, proposal: Comparison, desired: States)
    requires ValidStates(expectation) && ValidBundle(first) && ValidBundle(second)
    requires Continuous(expectation, first, v) && IndependentAt(first, second, v)
    requires AdoptedAt(root, first, at, commit, v) && Adopted(first.readings[v], at, commit) == Some(head)
    requires Compare(head.body.evidence.body.state, second.readings[v].state, InSync, DriftDetected)
             == Some(observation)
    requires observation.outcome == InSync
    requires ProposedAt(head, v, desired, proposal)
    ensures LineHolds(ResultLine(v, expectation[v], first.readings[v], head, second.readings[v], observation, proposal),
                      v, expectation, first, second, root, desired)
  {}

  // ---------------------------------------------------------------- the host's disk

  /** What one initialisation may leave behind: decided by its first read, its time and its commit. */
  datatype Plan = Plan(first: Bundle, at: int, commit: nat)
  {
    ghost predicate Exact(root: Root) { FourChains(root, first, at, commit) }

    /** All or nothing, where `intruder` is a root that somebody else put in place. */
    ghost predicate Allows(final: Option<Root>, intruder: Option<Root>) {
      final == None || final == intruder || Exact(final.value)
    }

    ghost predicate Adopts(records: seq<Record>)
      requires |records| <= |VERTICALS|
    {
      forall i | 0 <= i < |records| ::
        && VERTICALS[i] in first.readings && Adopted(first.readings[VERTICALS[i]], at, commit) == Some(records[i])
        && records[i].body.evidence.body.stateDigest == records[i].body.evidence.body.state.Digest()
    }

    /** The second read shows every vertical in the state of the first. */
    ghost predicate Confirmed(second: Bundle) {
      forall v: Vertical ::
        v in first.readings && v in second.readings && first.readings[v].state == second.readings[v].state
    }

    /** Every vertical is wanted in some state of its own envelope. */
    ghost predicate Wanted(desired: States) {
      forall v: Vertical ::
        && v in first.readings && v in desired
        && desired[v].vertical == v && desired[v].envelope == first.readings[v].state.envelope
    }

    ghost predicate Holds(r: Record, v: Vertical) {
      v in first.readings && r.body.evidence.body.state == first.readings[v].state
    }

    ghost predicate Line(v: Vertical, r: Record, second: Bundle, c: Comparison) {
      && v in first.readings && v in second.readings
      && Adopted(first.readings[v], at, commit) == Some(r)
      && Compare(r.body.evidence.body.state, second.readings[v].state, InSync, DriftDetected) == Some(c)
      && c.outcome == InSync
    }
  }

  /**
   * One step of the disk: staging changes, somebody else puts a root where none is, or the one rename moves
   * a complete staging to where none is.
   */
  ghost predicate MoveAt(now: seq<Disk>, i: nat, plan: Plan, intruder: Option<Root>)
    requires 0 < i < |now|
  {
    var d, d' := now[i - 1], now[i];
    || d'.final == d.final
    || (d.final == None && d' == d.(final := intruder))
    || (d.final == None && d.staging.Some? && plan.Exact(d.staging.value) && d' == Disk(d.staging, None))
  }

  /** What happened to the disk since `before`, step by step. */
  ghost predicate Moved(before: seq<Disk>, now: seq<Disk>, plan: Plan, intruder: Option<Root>) {
    && before != [] && before <= now
    && forall i {:trigger MoveAt(now, i, plan, intruder)} | |before| <= i < |now| :: MoveAt(now, i, plan, intruder)
  }

  lemma MovedOn(before: seq<Disk>, now: seq<Disk>, later: seq<Disk>, plan: Plan, intruder: Option<Root>)
    requires Moved(before, now, plan, intruder) && Moved(now, later, plan, intruder)
    ensures Moved(before, later, plan, intruder)
  {
    forall i | |before| <= i < |later| ensures MoveAt(later, i, plan, intruder) {
      if i < |now| { assert MoveAt(now, i, plan, intruder); }
    }
  }

  lemma MovedOne(before: seq<Disk>, now: seq<Disk>, d: Disk, plan: Plan, intruder: Option<Root>)
    requires Moved(before, now, plan, intruder) && MoveAt(now + [d], |now|, plan, intruder)
    ensures Moved(before, now + [d], plan, intruder)
  {
    forall i | |before| <= i < |now + [d]| ensures MoveAt(now + [d], i, plan, intruder) {
      if i < |now| { assert MoveAt(now, i, plan, intruder); }
    }
  }

  /**
   * All or nothing: from a disk without a final root, at every later moment the final root is absent,
   * somebody else's, or exactly the four chains; and once there it is never replaced.
   */
  lemma {:induction false} AllOrNothing(before: seq<Disk>, now: seq<Disk>, plan: Plan, intruder: Option<Root>, i: nat)
    requires Moved(before, now, plan, intruder) && before[|before| - 1].final == None
    requires |before| - 1 <= i < |now|
    ensures plan.Allows(now[i].final, intruder)
    ensures i + 1 < |now| && now[i].final.Some? ==> now[i + 1].final == now[i].final
  {
    if i >= |before| {
      AllOrNothing(before, now, plan, intruder, i - 1);
      assert MoveAt(now, i, plan, intruder);
    }
    if i + 1 < |now| { assert MoveAt(now, i + 1, plan, intruder); }
  }

  /** Every vertical, in order, with everything its line proves. */
  ghost predicate ResultHolds(lines: seq<VerticalResult>, expectation: States, first: Bundle, second: Bundle,
                              root: Root, desired: States)
  {
    && |lines| == |VERTICALS|
    && forall i | 0 <= i < |VERTICALS| :: LineHolds(lines[i], VERTICALS[i], expectation, first, second, root, desired)
  }

  ghost predicate AdoptedSoFar(root: Root, first: Bundle, at: int, commit: nat, records: seq<Record>)
    requires |records| <= |VERTICALS|
  {
    forall i | 0 <= i < |records| ::
      && AdoptedAt(root, first, at, commit, VERTICALS[i])
      && Adopted(first.readings[VERTICALS[i]], at, commit) == Some(records[i])
  }

  ghost predicate RestEmpty(root: Root, n: nat) {
    forall i | n <= i < |VERTICALS| :: VERTICALS[i] in root && root[VERTICALS[i]] == map[]
  }

  lemma OneMoreAdopted(before: Root, after: Root, first: Bundle, at: int, commit: nat, records: seq<Record>, r: Record)
    requires |records| < |VERTICALS| && AdoptedSoFar(before, first, at, commit, records) && RestEmpty(before, |records|)
    requires AdoptedAt(after, first, at, commit, VERTICALS[|records|])
    requires Adopted(first.readings[VERTICALS[|records|]], at, commit) == Some(r)
    requires forall v: Vertical | v != VERTICALS[|records|] && v in before :: v in after && after[v] == before[v]
    ensures AdoptedSoFar(after, first, at, commit, records + [r]) && RestEmpty(after, |records| + 1)
  {}

  lemma AllAdopted(root: Root, first: Bundle, at: int, commit: nat, records: seq<Record>)
    requires |records| == |VERTICALS| && AdoptedSoFar(root, first, at, commit, records)
    ensures FourChains(root, first, at, commit)
  {
    forall v: Vertical ensures AdoptedAt(root, first, at, commit, v) { EveryVertical(v); }
  }

  /** Whether staging was there at some moment since the first `n`. */
  ghost predicate StagedSince(history: seq<Disk>, n: nat) {
    exists i | n <= i < |history| :: history[i].staging.Some?
  }

  lemma StagedStays(history: seq<Disk>, later: seq<Disk>, n: nat)
    requires StagedSince(history, n) && history <= later
    ensures StagedSince(later, n)
  {
    var i :| n <= i < |history| && history[i].staging.Some?;
    assert later[i] == history[i];
  }

  /** The disk of the host, as the history of what it has shown; the last entry is what it shows now. */
  class Host {
    var history: seq<Disk>
    var removals: seq<bool>   // each attempt to remove staging, and whether it succeeded

    constructor (final: Option<Root>)
      ensures history == [Disk(final, None)] && removals == []
    {
      history, removals := [Disk(final, None)], [];
    }

    function Now(): Disk
      requires history != []
      reads this
    {
      history[|history| - 1]
    }

    /** Somebody else may put a root in place, unless one is there. */
    method Intrude(intruder: Option<Root>, ghost plan: Plan)
      requires history != []
      modifies `history
      ensures Moved(old(history), history, plan, intruder)
      ensures Now().staging == old(Now().staging)
      ensures Now().final == old(Now().final) || (old(Now().final) == None && Now().final == intruder)
    {
      if * {
        if Now().final == None {
          MovedOne(history, history, Now().(final := intruder), plan, intruder);
          history := history + [Now().(final := intruder)];
        }
      }
    }

    /** Changing staging; somebody else may act before. */
    method Stage(staging: Option<Root>, intruder: Option<Root>, ghost plan: Plan)
      requires history != []
      modifies `history
      ensures Moved(old(history), history, plan, intruder) && |history| > |old(history)|
      ensures Now().staging == staging
      ensures Now().final == old(Now().final) || (old(Now().final) == None && Now().final == intruder)
    {
      Intrude(intruder, plan);
      MovedOne(old(history), history, Now().(staging := staging), plan, intruder);
      history := history + [Now().(staging := staging)];
    }

    /** Building the four first acceptances in staging. */
    method Accept(intruder: Option<Root>, plan: Plan, faults: Vertical -> Fault)
      returns (records: Option<seq<Record>>)
      requires history != [] && ValidBundle(plan.first)
      modifies `history
      ensures Moved(old(history), history, plan, intruder)
      ensures Now().final == old(Now().final) || (old(Now().final) == None && Now().final == intruder)
      ensures Now().staging.Some? && forall v: Vertical :: v in Now().staging.value
      ensures StagedSince(history, |old(history)|)
      ensures records.Some? <==> forall v: Vertical :: faults(v) == NoFault
      ensures records.Some? ==> |records.value| == |VERTICALS|
      ensures records.Some? ==>
                AdoptedSoFar(Now().staging.value, plan.first, plan.at, plan.commit, records.value)
    {
      var store := new ManagedStateStore(true);
      Stage(Some(store.accepted), intruder, plan);
      assert history[|history| - 1].staging.Some?;
      forall i | 0 <= i < |VERTICALS| ensures store.accepted[VERTICALS[i]] == map[] {
        assert store.Dir(VERTICALS[i]) == map[];
      }
      var accepted: seq<Record> := [];
      for i := 0 to |VERTICALS|
        invariant store.Valid() && store.writable && fresh(store)
        invariant Moved(old(history), history, plan, intruder) && Now().staging == Some(store.accepted)
        invariant StagedSince(history, |old(history)|)
        invariant Now().final == old(Now().final) || (old(Now().final) == None && Now().final == intruder)
        invariant |accepted| == i && AdoptedSoFar(store.accepted, plan.first, plan.at, plan.commit, accepted)
        invariant RestEmpty(store.accepted, i) && forall j | 0 <= j < i :: faults(VERTICALS[j]) == NoFault
      {
        ghost var before, past := store.accepted, history;
        var v := VERTICALS[i];
        var res := AcceptOne(store, v, plan.first.readings[v], plan.at, plan.commit, faults(v));
        Stage(Some(store.accepted), intruder, plan);
        MovedOn(old(history), past, history, plan, intruder);
        StagedStays(past, history, |old(history)|);
        if res == None { return None; }
        FirstAcceptance(v, plan.first.readings[v], plan.at, plan.commit);
        OneMoreAdopted(before, store.accepted, plan.first, plan.at, plan.commit, accepted, res.value);
        accepted := accepted + [res.value];
      }
      forall v: Vertical ensures faults(v) == NoFault { EveryVertical(v); }
      return Some(accepted);
    }

    static method AcceptOne(store: ManagedStateStore, v: Vertical, reading: Reading, at: int, commit: nat, fault: Fault)
      returns (res: Option<Record>)
      requires store.Valid() && store.writable && store.accepted[v] == map[]
      requires reading.state.Valid() && reading.state.vertical == v
      modifies store
      ensures store.Valid()
      ensures forall w: Vertical | w != v :: store.accepted[w] == old(store.accepted)[w]
      ensures res.Some? <==> fault == NoFault
      ensures res.Some? ==> res == Adopted(reading, at, commit)
      ensures res.Some? ==> store.accepted[v] == map[RecordName(res.value.digest) := Canonical(res.value)]
    {
      FirstAcceptance(v, reading, at, commit);
      EmptyResolves(v);
      var e := BuildInitialAdoption(at, true, reading.state, commit, reading.evidence);
      ghost var chain;
      var persisted;
      persisted, chain := store.PersistAcceptance(e.value, map[], map[], fault);
      ChainIsUnique(v, map[], chain, []);
      res := if persisted.Ok? then Some(persisted.value) else None;
      forall w: Vertical | w != v ensures store.accepted[w] == old(store.accepted)[w] {
        assert store.Dir(w) == old(store.Dir(w));
      }
    }

    /** The rename: staging becomes the final root in one step, unless a final root exists or the call fails. */
    method Promote(intruder: Option<Root>, ghost plan: Plan, renamed: bool) returns (promoted: bool)
      requires history != [] && Now().staging.Some? && plan.Exact(Now().staging.value)
      modifies `history
      ensures Moved(old(history), history, plan, intruder)
      ensures promoted ==> Now() == Disk(old(Now().staging), None) && old(Now().final) == None && renamed
      ensures !promoted ==> !renamed || Now().final.Some?
      ensures !promoted ==>
                && Now().staging == old(Now().staging)
                && (Now().final == old(Now().final) || (old(Now().final) == None && Now().final == intruder))
    {
      if Now().final.Some? { return false; }
      Intrude(intruder, plan);
      if Now().final.Some? { return false; }
      if !renamed { return false; }
      MovedOne(old(history), history, Disk(Now().staging, None), plan, intruder);
      history := history + [Disk(Now().staging, None)];
      return true;
    }

    /** After the promotion: the records must still be there, and the current proposals are compared. */
    method Recheck(records: seq<Record>, plan: Plan, desired: States) returns (proposals: Option<seq<Comparison>>)
      requires history != [] && Now().final.Some? && plan.Exact(Now().final.value) && |records| == |VERTICALS|
      requires plan.Adopts(records) && ValidBundle(plan.first)
      ensures proposals.Some? ==> Proposed(records, desired, proposals.value)
      ensures proposals.Some? <==> plan.Wanted(desired)
    {
      AllPresent(Now().final.value, plan);
      var heads := ResolveAll(Now().final.value);
      ExactHeads(Now().final.value, plan, records, heads);
      if heads == None { return None; }
      if exists i | 0 <= i < |VERTICALS| :: heads.value[i].digest != records[i].digest { return None; }
      if exists v | v in VERTICALS :: v !in desired { return None; }
      forall v: Vertical ensures v in desired { EveryVertical(v); }
      proposals := CompareAll(heads.value, desired, NoChange, ChangeProposed);
      ComparableExactly(plan, records, desired, proposals);
      if proposals.Some? { ComparedAreProposed(plan, records, desired, proposals.value); }
    }

    /** Everything of the try block: staging, second read, promotion and result. */
    method Attempt(expectation: States, intruder: Option<Root>, plan: Plan, a: Answers, desired: States)
      returns (res: Result<seq<VerticalResult>, InitError>, created: bool, promoted: bool, ghost second: Bundle)
      requires history != [] && Now() == Disk(None, None)
      requires ValidStates(expectation) && ValidBundle(plan.first)
      requires forall v: Vertical :: Continuous(expectation, plan.first, v)
      requires a.clean && a.first == Some(plan.first)
      modifies `history
      ensures Moved(old(history), history, plan, intruder)
      ensures if promoted then Now().final.Some? && plan.Exact(Now().final.value) && Now().staging == None
              else Now().final == None || Now().final == intruder
      ensures if created then StagedSince(history, |old(history)|) else history == old(history)
      ensures !promoted && created ==> Now().staging.Some?
      ensures (created || res.Err?) && res != Err(FinalRootExists)
      ensures res.Ok? ==> Succeeds(expectation, a, desired) && a.second == Some(second)
      ensures Succeeds(expectation, a, desired) ==> res.Ok? || (!promoted && Now().final.Some?)
      ensures res.Ok? ==>
                promoted && ResultHolds(res.value, expectation, plan.first, second, Now().final.value, desired)
    {
      created, promoted, second := false, false, plan.first;
      SuccessMeans(expectation, plan, a, desired);
      if !a.created { return Err(StagingFailed), false, false, second; }
      created := true;
      var records := Accept(intruder, plan, a.faults);
      if records == None { return Err(StagingFailed), true, false, second; }
      AllAdopted(Now().staging.value, plan.first, plan.at, plan.commit, records.value);
      AdoptedAreSigned(Now().staging.value, plan, records.value);
      var read, observed, error := Reread(records.value, plan, a.second);
      if error.Some? { return Err(error.value), true, false, second; }
      second := read;
      ghost var past := history;
      promoted := Promote(intruder, plan, a.renamed);
      MovedOn(old(history), past, history, plan, intruder);
      StagedStays(past, history, |old(history)|);
      if !promoted { return Err(PromotionFailed), true, false, second; }
      var proposals := Recheck(records.value, plan, desired);
      if proposals == None { return Err(RecordsChanged), true, true, second; }
      var lines := Assemble(expectation, read, records.value, observed, proposals.value, Now().final.value, plan,
                             desired);
      MeansSuccess(expectation, plan, a, desired);
      res := Ok(lines);
    }

    /** The second read, independent of the first and in sync with every staged chain. */
    method Reread(records: seq<Record>, plan: Plan, answer: Option<Bundle>)
      returns (second: Bundle, observed: seq<Comparison>, error: Option<InitError>)
      requires history != [] && Now().staging.Some? && plan.Exact(Now().staging.value) && |records| == |VERTICALS|
      requires AdoptedSoFar(Now().staging.value, plan.first, plan.at, plan.commit, records)
      requires ValidBundle(plan.first)
      ensures error == None <==>
                Collected(answer) && Independent(plan.first, answer.value) && plan.Confirmed(answer.value)
      ensures error != Some(FinalRootExists)
      ensures error == None ==> answer == Some(second) && ValidBundle(second) && Independent(plan.first, second)
      ensures error == None ==> |observed| == |VERTICALS|
      ensures error == None ==>
                forall i | 0 <= i < |VERTICALS| :: plan.Line(VERTICALS[i], records[i], second, observed[i])
    {
      second, observed := plan.first, [];
      AllPresent(Now().staging.value, plan);
      var heads := ResolveAll(Now().staging.value);
      ExactHasHeads(Now().staging.value, plan);
      if heads == None { return second, observed, Some(StagingFailed); }
      HeadsAreRecords(Now().staging.value, plan, heads.value, records);
      AdoptedAreFirst(Now().staging.value, plan, records);
      if exists i | 0 <= i < |VERTICALS| :: !ExactFirst(heads.value[i]) {
        return second, observed, Some(StagingFailed);
      }
      var read := Collect(answer);
      if read == None { return second, observed, Some(CollectionFailed); }
      second := read.value;
      if !Independent(plan.first, second) { return second, observed, Some(NotIndependent); }
      var compared := CompareAll(heads.value, StatesOf(second), InSync, DriftDetected);
      ComparedConfirm(plan, records, second, compared);
      if compared == None { return second, observed, Some(ComparisonRejected); }
      observed := compared.value;
      if exists i | 0 <= i < |VERTICALS| :: observed[i].outcome != InSync { return second, observed, Some(Drifted); }
      return second, observed, None;
    }

    /**
     * `initialize_live_d0_store`. The disk only ever takes the steps of `Moved`, so that the final root is
     * all or nothing at every moment. A run that ends before the promotion with staging created makes
     * exactly one attempt to remove it, and staging remains exactly if that attempt failed; no other run
     * attempts a removal, and none leaves staging. A returned result proves, vertical by vertical, that the
     * expected digest, the accepted D0 digest and the digest of the second, independent read are the same.
     * There is a result exactly when everything the run meets allows one and nobody else's root comes first.
     */
    method Initialize(expectation: States, intruder: Option<Root>, at: int, commit: nat, a: Answers, desired: States)
      returns (res: Result<seq<VerticalResult>, InitError>, promoted: bool, ghost plan: Plan, ghost second: Bundle)
      requires history != [] && ValidStates(expectation) && Now().staging == None
      modifies this
      ensures Moved(old(history), history, plan, intruder)
      ensures res == Err(FinalRootExists) <==> old(Now().final).Some?
      ensures old(Now().final).Some? ==> history == old(history)
      ensures old(Now().final) == None && a.clean && Collected(a.first) && !Unchanged(expectation, a.first.value) ==>
                res == Err(PreAdoptionChange(Mismatches(expectation, a.first.value, VERTICALS)))
      ensures res.Ok? ==> old(Now().final) == None && Succeeds(expectation, a, desired)
      ensures old(Now().final) == None && Succeeds(expectation, a, desired) ==>
                res.Ok? || (!promoted && intruder.Some? && Now().final == intruder)
      ensures promoted ==> Now().final.Some? && plan.Exact(Now().final.value)
      ensures !promoted ==> Now().final == old(Now().final) || Now().final == intruder
      ensures if !promoted && StagedSince(history, |old(history)|)
              then exists removed :: removals == old(removals) + [removed] && (Now().staging == None <==> removed)
              else removals == old(removals) && Now().staging == None
      ensures res.Ok? ==>
                promoted && ResultHolds(res.value, expectation, plan.first, second, Now().final.value, desired)
    {
      var first := Bundle(0, map[]);
      plan, second, promoted := Plan(first, at, commit), first, false;
      if Now().final.Some? { res := Err(FinalRootExists); return; }
      if !a.clean { res := Err(SourceRejected); return; }
      var read := Collect(a.first);
      if read == None { res := Err(CollectionFailed); return; }
      first := read.value;
      plan := Plan(first, at, commit);
      var changed := EnforceContinuity(expectation, first);
      SuccessMeans(expectation, plan, a, desired);
      if changed != [] { res := Err(PreAdoptionChange(changed)); return; }
      res, promoted, second := AttemptAndTidy(expectation, intruder, Plan(first, at, commit), a, desired);
    }

    /** The try block with its handler: a failure before the promotion tries once to remove staging. */
    method AttemptAndTidy(expectation: States, intruder: Option<Root>, plan: Plan, a: Answers, desired: States)
      returns (res: Result<seq<VerticalResult>, InitError>, promoted: bool, ghost second: Bundle)
      requires history != [] && Now() == Disk(None, None)
      requires ValidStates(expectation) && ValidBundle(plan.first)
      requires forall v: Vertical :: Continuous(expectation, plan.first, v)
      requires a.clean && a.first == Some(plan.first)
      modifies this
      ensures Moved(old(history), history, plan, intruder)
      ensures promoted ==> Now().final.Some? && plan.Exact(Now().final.value)
      ensures !promoted ==> Now().final == None || Now().final == intruder
      ensures if !promoted && StagedSince(history, |old(history)|)
              then exists removed :: removals == old(removals) + [removed] && (Now().staging == None <==> removed)
              else removals == old(removals) && Now().staging == None
      ensures res != Err(FinalRootExists)
      ensures res.Ok? ==> Succeeds(expectation, a, desired)
      ensures Succeeds(expectation, a, desired) ==> res.Ok? || (!promoted && intruder.Some? && Now().final == intruder)
      ensures res.Ok? ==>
                promoted && ResultHolds(res.value, expectation, plan.first, second, Now().final.value, desired)
    {
      var created;
      res, created, promoted, second := Attempt(expectation, intruder, plan, a, desired);
      if res.Err? && !promoted && created && Now().staging.Some? {
        ghost var past := history;
        RemoveStaging(intruder, plan);
        MovedOn(old(history), past, history, plan, intruder);
        StagedStays(past, history, |old(history)|);
      }
    }

    /** `_safe_remove_staging`, which may fail, at once or halfway. */
    method RemoveStaging(intruder: Option<Root>, ghost plan: Plan)
      requires history != [] && Now().staging.Some?
      modifies this
      ensures Moved(old(history), history, plan, intruder)
      ensures exists removed :: removals == old(removals) + [removed] && (Now().staging == None <==> removed)
      ensures Now().final == old(Now().final) || (old(Now().final) == None && Now().final == intruder)
    {
      var removed: bool, rest: Root := *, *;
      Stage(if removed then None else Some(rest), intruder, plan);
      removals := removals + [removed];
    }
  }

  predicate ExactFirst(head: Record) {
    && head.body.generation == 1 && head.body.evidence.body.mode == InitialAdoption
    && head.body.evidence.body.previous == None && head.body.evidence.body.convergence == None
  }

  /** Both directions between what a run succeeds on and what its steps check. */
  lemma SuccessMeans(expectation: States, plan: Plan, a: Answers, desired: States)
    requires ValidStates(expectation) && ValidBundle(plan.first) && a.first == Some(plan.first)
    ensures Succeeds(expectation, a, desired) ==>
              && a.created && Collected(a.second) && a.renamed && (forall v: Vertical :: a.faults(v) == NoFault)
              && Independent(plan.first, a.second.value) && plan.Confirmed(a.second.value) && plan.Wanted(desired)
              && forall v: Vertical :: Continuous(expectation, plan.first, v)
  {
    if Succeeds(expectation, a, desired) {
      var second := a.second.value;
      forall v: Vertical
        ensures IndependentAt(plan.first, second, v) && Continuous(expectation, plan.first, v)
        ensures a.faults(v) == NoFault && plan.first.readings[v].state == second.readings[v].state
        ensures v in desired && desired[v].vertical == v
        ensures desired[v].envelope == plan.first.readings[v].state.envelope
      {
        assert Initialises(expectation, a, desired, v);
      }
    }
  }

  lemma MeansSuccess(expectation: States, plan: Plan, a: Answers, desired: States)
    requires ValidStates(expectation) && ValidBundle(plan.first) && a.first == Some(plan.first)
    requires forall v: Vertical :: Continuous(expectation, plan.first, v)
    requires a.clean && a.created && Collected(a.second) && a.renamed && forall v: Vertical :: a.faults(v) == NoFault
    requires Independent(plan.first, a.second.value) && plan.Confirmed(a.second.value) && plan.Wanted(desired)
    ensures Succeeds(expectation, a, desired)
  {
    forall v: Vertical ensures Initialises(expectation, a, desired, v) {
      EveryVertical(v);
      assert Continuous(expectation, plan.first, v) && IndependentAt(plan.first, a.second.value, v);
    }
  }

  lemma ExactHasHeads(root: Root, plan: Plan)
    requires plan.Exact(root)
    ensures forall v :: !Headless(root, v)
  {
    forall v ensures !Headless(root, v) {
      assert AdoptedAt(root, plan.first, plan.at, plan.commit, v);
    }
  }

  /** Resolving an exact root gives the adopted records back. */
  lemma ExactHeads(root: Root, plan: Plan, records: seq<Record>, heads: Option<seq<Record>>)
    requires |records| == |VERTICALS| && plan.Exact(root) && plan.Adopts(records)
    requires heads == None ==> exists v :: Headless(root, v)
    requires heads.Some? ==> |heads.value| == |VERTICALS|
    requires heads.Some? ==> forall i | 0 <= i < |VERTICALS| :: HeadOf(root, VERTICALS[i], heads.value[i])
    ensures heads == Some(records)
    ensures forall i | 0 <= i < |VERTICALS| :: ExactFirst(records[i]) && plan.Holds(records[i], VERTICALS[i])
  {
    ExactHasHeads(root, plan);
    RecordsIn(root, plan, records);
    HeadsAreRecords(root, plan, heads.value, records);
    AdoptedAreFirst(root, plan, records);
  }

  /** Adopted records are of generation one and hold the states of the first read. */
  lemma AdoptedAreFirst(root: Root, plan: Plan, records: seq<Record>)
    requires |records| == |VERTICALS| && AdoptedSoFar(root, plan.first, plan.at, plan.commit, records)
    ensures forall i | 0 <= i < |VERTICALS| :: ExactFirst(records[i]) && plan.Holds(records[i], VERTICALS[i])
  {
    forall i | 0 <= i < |VERTICALS| ensures ExactFirst(records[i]) && plan.Holds(records[i], VERTICALS[i]) {
      assert AdoptedAt(root, plan.first, plan.at, plan.commit, VERTICALS[i]);
      assert LinkAt(VERTICALS[i], [records[i]], 0);
    }
  }

  lemma ComparedConfirm(plan: Plan, records: seq<Record>, second: Bundle, compared: Option<seq<Comparison>>)
    requires |records| == |VERTICALS| && ValidBundle(plan.first) && ValidBundle(second)
    requires forall i | 0 <= i < |VERTICALS| :: plan.Holds(records[i], VERTICALS[i])
    requires Compares(records, StatesOf(second), InSync, DriftDetected, compared)
    ensures plan.Confirmed(second) <==>
              compared.Some? && forall i | 0 <= i < |VERTICALS| :: compared.value[i].outcome == InSync
  {
    if plan.Confirmed(second) {
      forall i | 0 <= i < |VERTICALS|
        ensures Compare(records[i].body.evidence.body.state, StatesOf(second)[VERTICALS[i]], InSync, DriftDetected)
                != None
      {
        assert plan.Holds(records[i], VERTICALS[i]);
      }
    }
    if compared.Some? && forall i | 0 <= i < |VERTICALS| :: compared.value[i].outcome == InSync {
      forall v: Vertical ensures plan.first.readings[v].state == second.readings[v].state {
        EveryVertical(v);
        var i :| 0 <= i < |VERTICALS| && VERTICALS[i] == v;
        assert plan.Holds(records[i], v) && compared.value[i].outcome == InSync;
      }
    }
  }

  lemma ComparableExactly(plan: Plan, records: seq<Record>, desired: States, compared: Option<seq<Comparison>>)
    requires |records| == |VERTICALS| && ValidBundle(plan.first) && forall v: Vertical :: v in desired
    requires forall i | 0 <= i < |VERTICALS| :: plan.Holds(records[i], VERTICALS[i])
    requires Compares(records, desired, NoChange, ChangeProposed, compared)
    ensures compared.Some? <==> plan.Wanted(desired)
  {
    if compared.Some? {
      forall v: Vertical
        ensures desired[v].vertical == v && desired[v].envelope == plan.first.readings[v].state.envelope
      {
        EveryVertical(v);
        var i :| 0 <= i < |VERTICALS| && VERTICALS[i] == v;
        assert plan.Holds(records[i], v);
        ComparesExactly(plan.first.readings[v].state, desired[v], NoChange, ChangeProposed);
      }
    } else {
      var i :| 0 <= i < |VERTICALS| &&
        Compare(records[i].body.evidence.body.state, desired[VERTICALS[i]], NoChange, ChangeProposed) == None;
      assert plan.Holds(records[i], VERTICALS[i]);
    }
  }

  lemma AllPresent(root: Root, plan: Plan)
    requires plan.Exact(root)
    ensures forall v: Vertical :: v in root
  {
    forall v: Vertical ensures v in root { assert AdoptedAt(root, plan.first, plan.at, plan.commit, v); }
  }

  lemma RecordsIn(root: Root, plan: Plan, records: seq<Record>)
    requires |records| == |VERTICALS| && plan.Exact(root) && plan.Adopts(records)
    ensures AdoptedSoFar(root, plan.first, plan.at, plan.commit, records)
  {
    forall i | 0 <= i < |records| ensures AdoptedAt(root, plan.first, plan.at, plan.commit, VERTICALS[i]) {}
  }

  /** Each proposal compares the accepted state of its record with a desired one. */
  ghost predicate Proposed(records: seq<Record>, desired: States, proposals: seq<Comparison>) {
    && |proposals| == |records| <= |VERTICALS|
    && forall i | 0 <= i < |records| :: ProposedAt(records[i], VERTICALS[i], desired, proposals[i])
  }

  lemma ComparedAreProposed(plan: Plan, records: seq<Record>, desired: States, proposals: seq<Comparison>)
    requires |records| == |VERTICALS| && plan.Adopts(records) && forall v: Vertical :: v in desired
    requires Compares(records, desired, NoChange, ChangeProposed, Some(proposals))
    ensures Proposed(records, desired, proposals)
  {
    forall i | 0 <= i < |records| ensures ProposedAt(records[i], VERTICALS[i], desired, proposals[i]) {
      assert VERTICALS[i] in desired;
    }
  }

  lemma AdoptedAreSigned(root: Root, plan: Plan, records: seq<Record>)
    requires |records| <= |VERTICALS| && AdoptedSoFar(root, plan.first, plan.at, plan.commit, records)
    ensures plan.Adopts(records)
  {
    forall i | 0 <= i < |records|
      ensures records[i].body.evidence.body.stateDigest == records[i].body.evidence.body.state.Digest()
    {
      assert AdoptedAt(root, plan.first, plan.at, plan.commit, VERTICALS[i]);
    }
  }

  lemma HeadsAreRecords(root: Root, plan: Plan, heads: seq<Record>, records: seq<Record>)
    requires |heads| == |records| == |VERTICALS|
    requires AdoptedSoFar(root, plan.first, plan.at, plan.commit, records)
    requires forall i | 0 <= i < |VERTICALS| :: HeadOf(root, VERTICALS[i], heads[i])
    ensures heads == records
  {
    forall i | 0 <= i < |VERTICALS| ensures heads[i] == records[i] {
      HeadIsAdopted(root, plan.first, plan.at, plan.commit, VERTICALS[i], heads[i]);
    }
  }

  /** The lines of the result, one per vertical. */
  method Assemble(expectation: States, second: Bundle, records: seq<Record>, observed: seq<Comparison>,
                  proposals: seq<Comparison>, ghost root: Root, plan: Plan, ghost desired: States)
    returns (lines: seq<VerticalResult>)
    requires plan.Exact(root) && ValidStates(expectation) && ValidBundle(plan.first) && ValidBundle(second)
    requires forall v: Vertical :: Continuous(expectation, plan.first, v)
    requires Independent(plan.first, second)
    requires |records| == |observed| == |proposals| == |VERTICALS|
    requires forall i | 0 <= i < |VERTICALS| :: plan.Line(VERTICALS[i], records[i], second, observed[i])
    requires Proposed(records, desired, proposals)
    ensures ResultHolds(lines, expectation, plan.first, second, root, desired)
  {
    lines := [];
    for i := 0 to |VERTICALS|
      invariant |lines| == i
      invariant forall j | 0 <= j < i ::
                  LineHolds(lines[j], VERTICALS[j], expectation, plan.first, second, root, desired)
    {
      var v := VERTICALS[i];
      var line := ResultLine(v, expectation[v], plan.first.readings[v], records[i], second.readings[v],
                             observed[i], proposals[i]);
      assert plan.Line(v, records[i], second, observed[i]);
      assert AdoptedAt(root, plan.first, plan.at, plan.commit, v) && Continuous(expectation, plan.first, v);
      assert IndependentAt(plan.first, second, v);
      LineOfRun(v, expectation, plan.first, second, root, plan.at, plan.commit, records[i], observed[i], proposals[i],
                desired);
      lines := lines + [line];
    }
  }
}
