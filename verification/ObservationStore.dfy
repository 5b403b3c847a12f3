/**
 * Observation records kept beside the audit store: each refers to one audit record, which refers to
 * artifacts. Record identifiers are numbers, in the order of the file names they give.
 */
module ObservationStore {
  import opened Sequences
  import opened AuditFiles
  import opened AuditRuns

  const MAX_OBSERVATION_RECORD_BYTES := 64 * 1024
  const MAX_OBSERVATION_RECORD_SCAN := 10_000
  const MAX_OBSERVATION_QUERY_RESULTS := 100

  /** `valid`: whether the record's own validator accepts these fields. */
  datatype ObservationBody = ObservationBody(
    id: nat, parent: nat, parentDigest: Digest, target: nat, size: Length, valid: bool, rest: nat)

  datatype ObservationDigest = OfObservation(body: ObservationBody) | OtherObservation(id: nat)

  datatype Observation = Observation(body: ObservationBody, digest: ObservationDigest)

  datatype Entry = RecordEntry(id: nat) | TemporaryEntry(id: nat) | OtherEntry(id: nat)

  type Directory = map<Entry, File<Observation>>

  datatype Archive = Archive(audit: Store, observations: Directory)

  predicate ParentReads(s: Store, o: Observation) {
    var parent := ReadRecord(s, o.body.parent);
    && parent.Ok?
    && parent.value.digest == o.body.parentDigest
    && o.body.target in parent.value.body.targets
  }

  function ReadObservation(a: Archive, id: nat): Result<Observation, StoreError> {
    if RecordEntry(id) !in a.observations then Err(Missing)
    else match a.observations[RecordEntry(id)]
      case Alien(_) => Err(SchemaInvalid)
      case Written(o) =>
        if o.body.size > MAX_OBSERVATION_RECORD_BYTES then Err(Missing)
        else if !o.body.valid then Err(SchemaInvalid)
        else if o.body.id != id || o.digest != OfObservation(o.body) then Err(IntegrityMismatch)
        else if !ParentReads(a.audit, o) then Err(ReferenceRejected)
        else Ok(o)
  }

  /** What `persist_observation_record` checks; an instance is not validated again, whatever its fields have become. */
  function AdmitObservation(s: Store, o: Observation): Result<(), StoreError> {
    if o.digest != OfObservation(o.body) then Err(DigestInvalid)
    else if !ParentReads(s, o) then Err(ReferenceRejected)
    else if o.body.size > MAX_OBSERVATION_RECORD_BYTES then Err(TooLarge)
    else Ok(())
  }

  /** Exactly signed observations within 64 KiB of a parent that reads, is the one meant and has the target. */
  lemma AdmitsObservationExactly(s: Store, o: Observation)
    ensures AdmitObservation(s, o).Ok? <==>
              && o.digest == OfObservation(o.body) && o.body.size <= 64 * 1024
              && ReadRecord(s, o.body.parent).Ok?
              && ReadRecord(s, o.body.parent).value.digest == o.body.parentDigest
              && o.body.target in ReadRecord(s, o.body.parent).value.body.targets
  {}

  // ---------------------------------------------------------------- runs

  datatype Move =
    | Audit(act: Act, checked: nat, stored: nat)
    | PublishObservation(observation: Observation, checked: nat)
    | LeaveTemporary(id: nat, content: File<Observation>)

  ghost predicate StepAt(states: seq<Archive>, moves: seq<Move>, i: nat)
    requires i < |moves| < |states|
  {
    var s, s' := states[i], states[i + 1];
    match moves[i]
    case Audit(act, checked, stored) =>
      && checked <= i && stored <= i
      && Admitted(act, states[checked].audit, states[stored].audit)
      && !Taken(s.audit, act)
      && s' == s.(audit := Apply(s.audit, act))
    case PublishObservation(o, checked) =>
      && checked <= i && AdmitObservation(states[checked].audit, o).Ok?
      && RecordEntry(o.body.id) !in s.observations
      && s' == s.(observations := s.observations[RecordEntry(o.body.id) := Written(o)])
    case LeaveTemporary(id, content) =>
      s' == s.(observations := s.observations[TemporaryEntry(id) := content])
  }

  /** The file of `id` holds a signed observation of that name whose parent reads; its validator was not asked. */
  predicate FiledAt(a: Archive, id: nat) {
    && RecordEntry(id) in a.observations
    && match a.observations[RecordEntry(id)]
       case Alien(_) => false
       case Written(o) =>
         && o.body.id == id && o.digest == OfObservation(o.body)
         && o.body.size <= MAX_OBSERVATION_RECORD_BYTES && ParentReads(a.audit, o)
  }

  predicate ReadsAt(a: Archive, id: nat) {
    FiledAt(a, id) && a.observations[RecordEntry(id)].value.body.valid
  }

  lemma ReadsExactlyAt(a: Archive, id: nat)
    ensures ReadObservation(a, id).Ok? <==> ReadsAt(a, id)
    ensures FiledAt(a, id) && !ReadsAt(a, id) ==> ReadObservation(a, id) == Err(SchemaInvalid)
  {}

  /** Every observation is filed with a parent that reads, and the parent's artifacts read; nothing else is there. */
  ghost predicate Anchored(a: Archive) {
    && Closed(a.audit)
    && (forall id {:trigger FiledAt(a, id)} | RecordEntry(id) in a.observations :: FiledAt(a, id))
    && (forall e | e in a.observations :: !e.OtherEntry?)
  }

  /** And every observation reads back. */
  ghost predicate TwoLevelClosed(a: Archive) {
    Anchored(a) && forall id {:trigger ReadsAt(a, id)} | RecordEntry(id) in a.observations :: ReadsAt(a, id)
  }

  ghost predicate IsRun(states: seq<Archive>, moves: seq<Move>) {
    && |states| == |moves| + 1 && Anchored(states[0])
    && forall i | 0 <= i < |moves| :: StepAt(states, moves, i)
  }

  ghost predicate Keeps(a: Archive, b: Archive) {
    && Extends(a.audit, b.audit)
    && forall id | RecordEntry(id) in a.observations ::
         RecordEntry(id) in b.observations && b.observations[RecordEntry(id)] == a.observations[RecordEntry(id)]
  }

  lemma MoveKeeps(states: seq<Archive>, moves: seq<Move>, i: nat)
    requires IsRun(states, moves) && i < |moves|
    ensures Keeps(states[i], states[i + 1])
  {
    assert StepAt(states, moves, i);
    if moves[i].Audit? { PublishingExtends(states[i].audit, moves[i].act); }
  }

  lemma {:induction false} RunKeeps(states: seq<Archive>, moves: seq<Move>, i: nat, j: nat)
    requires IsRun(states, moves) && i <= j < |states|
    ensures Keeps(states[i], states[j])
    decreases j
  {
    if i < j {
      RunKeeps(states, moves, i, j - 1);
      MoveKeeps(states, moves, j - 1);
      ExtendsTransitively(states[i].audit, states[j - 1].audit, states[j].audit);
    }
  }

  lemma ParentStays(s: Store, t: Store, o: Observation)
    requires Extends(s, t) && ParentReads(s, o)
    ensures ParentReads(t, o)
  {
    RecordStays(s, t, o.body.parent);
  }

  lemma ObservationStays(a: Archive, b: Archive, id: nat)
    requires Keeps(a, b) && FiledAt(a, id)
    ensures FiledAt(b, id) && (ReadsAt(b, id) <==> ReadsAt(a, id))
    ensures ReadObservation(b, id) == ReadObservation(a, id)
  {
    ParentStays(a.audit, b.audit, a.observations[RecordEntry(id)].value);
    ReadsExactlyAt(a, id);
    ReadsExactlyAt(b, id);
  }

  lemma MoveKeepsAnchored(states: seq<Archive>, moves: seq<Move>, i: nat)
    requires IsRun(states, moves) && i < |moves| && Anchored(states[i])
    ensures Anchored(states[i + 1])
    ensures moves[i].PublishObservation? ==>
              var o := moves[i].observation;
              FiledAt(states[i + 1], o.body.id) && states[i + 1].observations[RecordEntry(o.body.id)] == Written(o)
  {
    var m := moves[i];
    assert StepAt(states, moves, i);
    MoveKeeps(states, moves, i);
    match m {
      case Audit(act, checked, stored) =>
        RunKeeps(states, moves, checked, i);
        RunKeeps(states, moves, stored, i);
        AdmittedReads(states[i].audit, act, states[checked].audit, states[stored].audit);
        StepKeepsClosed(states[i].audit, act);
      case PublishObservation(o, checked) =>
        RunKeeps(states, moves, checked, i);
        ParentStays(states[checked].audit, states[i].audit, o);
      case LeaveTemporary(_, _) =>
    }
    forall id | RecordEntry(id) in states[i + 1].observations ensures FiledAt(states[i + 1], id) {
      if RecordEntry(id) in states[i].observations { ObservationStays(states[i], states[i + 1], id); }
    }
  }

  lemma {:induction false} RunIsAnchored(states: seq<Archive>, moves: seq<Move>, i: nat)
    requires IsRun(states, moves) && i < |states|
    ensures Anchored(states[i])
  {
    if i > 0 {
      RunIsAnchored(states, moves, i - 1);
      MoveKeepsAnchored(states, moves, i - 1);
    }
  }

  predicate PublishesValid(m: Move) { m.PublishObservation? ==> m.observation.body.valid }

  lemma MoveKeepsClosed(states: seq<Archive>, moves: seq<Move>, i: nat)
    requires IsRun(states, moves) && i < |moves|
    ensures TwoLevelClosed(states[i + 1]) <==> TwoLevelClosed(states[i]) && PublishesValid(moves[i])
  {
    var a, b, m := states[i], states[i + 1], moves[i];
    RunIsAnchored(states, moves, i);
    MoveKeepsAnchored(states, moves, i);
    MoveKeeps(states, moves, i);
    assert StepAt(states, moves, i);
    forall id | RecordEntry(id) in a.observations ensures FiledAt(a, id) && (ReadsAt(b, id) <==> ReadsAt(a, id)) {
      ObservationStays(a, b, id);
    }
    if TwoLevelClosed(b) {
      if m.PublishObservation? { assert ReadsAt(b, m.observation.body.id); }
      forall id | RecordEntry(id) in a.observations ensures ReadsAt(a, id) { assert ReadsAt(b, id); }
    }
    if TwoLevelClosed(a) && PublishesValid(m) {
      forall id | RecordEntry(id) in b.observations ensures ReadsAt(b, id) {
        if RecordEntry(id) in a.observations { assert ReadsAt(a, id); }
      }
    }
  }

  /**
   * Through any run of any writers the archive stays closed over both levels, every observation reading
   * back, if and only if every observation published was one its own validator accepts.
   */
  lemma {:induction false} RunIsTwoLevelClosed(states: seq<Archive>, moves: seq<Move>, i: nat)
    requires IsRun(states, moves) && i < |states|
    ensures Anchored(states[i])
    ensures TwoLevelClosed(states[i]) <==>
              TwoLevelClosed(states[0]) && forall k | 0 <= k < i :: PublishesValid(moves[k])
  {
    RunIsAnchored(states, moves, i);
    if i > 0 {
      RunIsTwoLevelClosed(states, moves, i - 1);
      MoveKeepsClosed(states, moves, i - 1);
    }
  }

  /**
   * Once published, the audit record an observation was checked against and every artifact of that record
   * read back the same at every later moment; the observation itself reads as published exactly when its
   * own validator accepts it, and otherwise never.
   */
  lemma ObservedForGood(states: seq<Archive>, moves: seq<Move>, i: nat, j: nat)
    requires IsRun(states, moves) && i < |moves| && i < j < |states| && moves[i].PublishObservation?
    ensures var o := moves[i].observation;
            && ReadObservation(states[j], o.body.id) == (if o.body.valid then Ok(o) else Err(SchemaInvalid))
            && var parent := ReadRecord(states[j].audit, o.body.parent);
               && parent.Ok? && parent.value.digest == o.body.parentDigest
               && o.body.target in parent.value.body.targets
               && parent == ReadRecord(states[i + 1].audit, o.body.parent)
               && forall k | 0 <= k < |parent.value.body.refs| ::
                    ReadArtifact(states[j].audit, parent.value.body.refs[k]).Ok?
  {
    RunIsAnchored(states, moves, i);
    MoveKeepsAnchored(states, moves, i);
    RunKeeps(states, moves, i + 1, j);
    var o := moves[i].observation;
    ReadsExactlyAt(states[i + 1], o.body.id);
    ObservationStays(states[i + 1], states[j], o.body.id);
    RecordStays(states[i + 1].audit, states[j].audit, o.body.parent);
  }

  /** One observation that its validator rejects, once published, makes every later listing fail. */
  lemma InvalidBlocksListing(states: seq<Archive>, moves: seq<Move>, i: nat, j: nat, maxScan: int)
    requires IsRun(states, moves) && i < |moves| && i < j < |states|
    requires moves[i].PublishObservation? && !moves[i].observation.body.valid
    ensures !Listable(states[j], maxScan)
  {
    var id := moves[i].observation.body.id;
    ObservedForGood(states, moves, i, j);
    RunIsAnchored(states, moves, i);
    MoveKeepsAnchored(states, moves, i);
    RunKeeps(states, moves, i + 1, j);
    assert RecordEntry(id) in states[j].observations.Keys;
    assert id in Ids(states[j].observations);
  }

  /** Such an observation, correctly signed, is admitted and published beside a record that reads. */
  lemma InvalidIsPublished() returns (states: seq<Archive>, moves: seq<Move>)
    ensures IsRun(states, moves) && |moves| == 1 && TwoLevelClosed(states[0]) && !TwoLevelClosed(states[1])
    ensures moves[0].PublishObservation? && !moves[0].observation.body.valid
  {
    var a := Artifact(ChangeRecord, Body(1, 2, true, Plain(0)), OtherDigest(0));
    var parent := RecordBody(0, {0}, [Refer(a)], 2, true, 0);
    var s := Store(map[(ChangeRecord, Identity(a)) := Canonical(a)],
                   map[0 := Written(Record(parent, OfRecord(parent)))], map[], map[]);
    ReadsExactly(s, Refer(a), a);
    assert ReadRecord(s, 0) == Ok(Record(parent, OfRecord(parent)));
    var body := ObservationBody(0, 0, OfRecord(parent), 0, 2, false, 0);
    var o := Observation(body, OfObservation(body));
    var empty: Directory := map[];
    states := [Archive(s, empty), Archive(s, empty[RecordEntry(0) := Written(o)])];
    moves := [PublishObservation(o, 0)];
    assert AdmitObservation(s, o).Ok?;
    assert StepAt(states, moves, 0);
    MoveKeepsClosed(states, moves, 0);
  }

  // ---------------------------------------------------------------- listing and finding

  function Ids(dir: Directory): set<nat> {
    set e | e in dir.Keys && e.RecordEntry? :: e.id
  }

  predicate ById(a: Observation, b: Observation) { a.body.id < b.body.id }

  /** All observations, in file-name order. */
  ghost predicate Listing(a: Archive, rs: seq<Observation>) {
    && (forall i, j | 0 <= i < j < |rs| :: ById(rs[i], rs[j]))
    && (forall r | r in rs :: ReadObservation(a, r.body.id) == Ok(r))
    && (forall id | id in Ids(a.observations) :: exists r | r in rs :: r.body.id == id)
  }

  /** Whether a listing with this bound succeeds. */
  ghost predicate Listable(a: Archive, maxScan: int) {
    && 1 <= maxScan <= 10_000
    && (forall e | e in a.observations :: !e.OtherEntry?)
    && |Ids(a.observations)| <= maxScan
    && forall id | id in Ids(a.observations) :: ReadObservation(a, id).Ok?
  }

  function Matching(rs: seq<Observation>, parent: nat): (found: seq<Observation>)
    ensures forall r :: r in found <==> r in rs && r.body.parent == parent
  {
    if rs == [] then []
    else
      var n := |rs| - 1;
      assert rs == rs[..n] + [rs[n]];
      Matching(rs[..n], parent) + if rs[n].body.parent == parent then [rs[n]] else []
  }

  lemma {:induction false} MatchingInOrder(rs: seq<Observation>, parent: nat)
    requires forall i, j | 0 <= i < j < |rs| :: ById(rs[i], rs[j])
    ensures forall i, j | 0 <= i < j < |Matching(rs, parent)| :: ById(Matching(rs, parent)[i], Matching(rs, parent)[j])
  {
    if rs != [] {
      var n := |rs| - 1;
      MatchingInOrder(rs[..n], parent);
      forall r | r in Matching(rs[..n], parent) ensures ById(r, rs[n]) { assert r in rs[..n]; }
    }
  }

  method ScanNames(dir: Directory, maxScan: int) returns (names: Option<seq<nat>>)
    requires maxScan >= 1
    ensures names.Some? <==> |Ids(dir)| <= maxScan && forall e | e in dir :: !e.OtherEntry?
    ensures names.Some? ==> Distinct(names.value) && Elements(names.value) == Ids(dir)
  {
    var listed: seq<nat> := [];
    var todo := dir.Keys;
    while todo != {}
      invariant todo <= dir.Keys
      invariant Distinct(listed) && |listed| <= maxScan
      invariant forall id :: id in listed <==> RecordEntry(id) in dir.Keys - todo
      invariant forall e | e in dir.Keys - todo :: !e.OtherEntry?
      decreases |todo|
    {
      var e :| e in todo;
      todo := todo - {e};
      if e.TemporaryEntry? { continue; }
      if e.OtherEntry? { return None; }
      assert e.id !in listed;
      listed := listed + [e.id];
      ElementCount(listed);
      if |listed| > maxScan {
        Subset(Elements(listed), Ids(dir));
        return None;
      }
    }
    ElementCount(listed);
    assert Elements(listed) == Ids(dir);
    return Some(listed);
  }

  function UpTo(): (nat, nat) -> bool { (a: nat, b: nat) => a <= b }

  lemma SortedNames(names: seq<nat>)
    requires Distinct(names)
    ensures var s := Sort(UpTo(), names);
            && Elements(s) == Elements(names)
            && forall i, j | 0 <= i < j < |s| :: s[i] < s[j]
  {
    var s := Sort(UpTo(), names);
    SortOrders(UpTo(), names);
    SameMembers(s, names);
    assert Elements(s) == Elements(names);
    ElementCount(s);
    ElementCount(names);
  }

  /** `iter_observation_records`: every observation in file-name order, or an error exactly when not listable. */
  method IterObservationRecords(a: Archive, maxScan: int) returns (res: Result<seq<Observation>, StoreError>)
    ensures res.Ok? <==> Listable(a, maxScan)
    ensures res.Ok? ==> Listing(a, res.value)
  {
    if !(1 <= maxScan <= MAX_OBSERVATION_RECORD_SCAN) { return Err(TooLarge); }
    var names := ScanNames(a.observations, maxScan);
    if names == None { return Err(TooLarge); }
    SortedNames(names.value);
    var ordered := Sort(UpTo(), names.value);
    assert Elements(ordered) == Ids(a.observations);
    res := ReadAll(a, ordered);
    if res.Ok? { ReadInOrder(a, ordered, res.value); }
  }

  /** Reading the named files one after another. */
  method ReadAll(a: Archive, names: seq<nat>) returns (res: Result<seq<Observation>, StoreError>)
    ensures res.Ok? <==> forall j | 0 <= j < |names| :: ReadObservation(a, names[j]).Ok?
    ensures res.Ok? ==> |res.value| == |names|
    ensures res.Ok? ==> forall j | 0 <= j < |names| :: ReadObservation(a, names[j]) == Ok(res.value[j])
  {
    var records: seq<Observation> := [];
    for i := 0 to |names|
      invariant |records| == i
      invariant forall j | 0 <= j < i :: ReadObservation(a, names[j]) == Ok(records[j])
    {
      var read := ReadObservation(a, names[i]);
      if read.Err? { return Err(read.error); }
      records := records + [read.value];
    }
    return Ok(records);
  }

  lemma ReadInOrder(a: Archive, names: seq<nat>, rs: seq<Observation>)
    requires Elements(names) == Ids(a.observations) && |rs| == |names|
    requires forall i, j | 0 <= i < j < |names| :: names[i] < names[j]
    requires forall j | 0 <= j < |names| :: ReadObservation(a, names[j]) == Ok(rs[j])
    ensures Listing(a, rs)
    ensures forall id | id in Ids(a.observations) :: ReadObservation(a, id).Ok?
  {
    assert forall j | 0 <= j < |names| :: rs[j].body.id == names[j];
    forall id | id in Ids(a.observations)
      ensures ReadObservation(a, id).Ok? && exists r | r in rs :: r.body.id == id
    {
      assert id in Elements(names);
      var j :| 0 <= j < |names| && names[j] == id;
      assert rs[j] in rs;
    }
  }

  /** The answer to a query by parent: exactly the persisted observations of that parent, in file-name order. */
  ghost predicate Answers(a: Archive, parent: nat, rs: seq<Observation>) {
    && (forall i, j | 0 <= i < j < |rs| :: ById(rs[i], rs[j]))
    && (forall o: Observation :: o in rs <==> ReadObservation(a, o.body.id) == Ok(o) && o.body.parent == parent)
  }

  lemma MatchingAnswers(a: Archive, parent: nat, listing: seq<Observation>)
    requires Listing(a, listing)
    ensures Answers(a, parent, Matching(listing, parent))
  {
    MatchingInOrder(listing, parent);
    forall o: Observation | ReadObservation(a, o.body.id) == Ok(o) ensures o in listing {
      assert o.body.id in Ids(a.observations) by { assert RecordEntry(o.body.id) in a.observations.Keys; }
      var r :| r in listing && r.body.id == o.body.id;
    }
  }

  /** Two answers to one query are the same answer. */
  lemma {:induction false} OneAnswer(a: Archive, parent: nat, rs: seq<Observation>, others: seq<Observation>)
    requires Answers(a, parent, rs) && Answers(a, parent, others)
    ensures rs == others
  {
    var leq := (x: Observation, y: Observation) => x.body.id <= y.body.id;
    assert forall o :: o in rs <==> o in others;
    assert Distinct(rs) && Distinct(others);
    SameSetSameMultiset(rs, others);
    OneArrangement(leq, rs, others);
  }

  /** The loop of `_find`: the matches so far, given up as soon as there are too many. */
  method Collect(records: seq<Observation>, parent: nat, maxResults: int) returns (matches: Option<seq<Observation>>)
    requires maxResults >= 1
    ensures matches == if |Matching(records, parent)| <= maxResults then Some(Matching(records, parent)) else None
  {
    var found: seq<Observation> := [];
    for i := 0 to |records|
      invariant found == Matching(records[..i], parent) && |found| <= maxResults
    {
      assert records[..i + 1][..i] == records[..i];
      if records[i].body.parent == parent {
        found := found + [records[i]];
        if |found| > maxResults {
          MatchingGrows(records, i + 1, parent);
          return None;
        }
      }
    }
    assert records[..|records|] == records;
    return Some(found);
  }

  /** `_find` with the parent predicate: the matches, or an error exactly when a bound is passed. */
  method Find(a: Archive, parent: nat, maxResults: int, maxScan: int)
    returns (res: Result<seq<Observation>, StoreError>)
    ensures res.Ok? ==> Answers(a, parent, res.value) && |res.value| <= maxResults
    ensures res.Err? && Listable(a, maxScan) && 1 <= maxResults <= 100 ==>
              exists rs :: Answers(a, parent, rs) && |rs| > maxResults
    ensures res.Ok? ==> Listable(a, maxScan) && 1 <= maxResults <= 100
  {
    if !(1 <= maxResults <= MAX_OBSERVATION_QUERY_RESULTS) { return Err(TooLarge); }
    var records := IterObservationRecords(a, maxScan);
    if records.Err? { return Err(records.error); }
    MatchingAnswers(a, parent, records.value);
    var matches := Collect(records.value, parent, maxResults);
    return if matches.Some? then Ok(matches.value) else Err(TooLarge);
  }

  lemma {:induction false} MatchingGrows(rs: seq<Observation>, n: nat, parent: nat)
    requires n <= |rs|
    ensures |Matching(rs[..n], parent)| <= |Matching(rs, parent)|
    decreases |rs|
  {
    if n == |rs| {
      assert rs[..n] == rs;
    } else {
      var m := |rs| - 1;
      MatchingGrows(rs[..m], n, parent);
      assert rs[..m][..n] == rs[..n];
    }
  }

  /** `find_by_parent`: the parent must read first. */
  method FindByParent(a: Archive, parent: nat, maxResults: int, maxScan: int)
    returns (res: Result<seq<Observation>, StoreError>)
    ensures res.Ok? ==> Answers(a, parent, res.value) && |res.value| <= maxResults
    ensures res.Ok? ==> ReadRecord(a.audit, parent).Ok? && |Ids(a.observations)| <= maxScan
    ensures res.Err? && TwoLevelClosed(a) && parent in a.audit.records
            && 1 <= maxResults <= 100 && 1 <= maxScan <= 10_000 ==>
              || |Ids(a.observations)| > maxScan
              || exists rs :: Answers(a, parent, rs) && |rs| > maxResults
  {
    var read := ReadRecord(a.audit, parent);
    if read.Err? { return Err(read.error); }
    if TwoLevelClosed(a) {
      forall id | id in Ids(a.observations) ensures ReadObservation(a, id).Ok? { assert ReadsAt(a, id); }
    }
    res := Find(a, parent, maxResults, maxScan);
  }

  // ---------------------------------------------------------------- persisting

  class ConfigurationObservationStore {
    const writable: bool
    var archive: Archive

    constructor (writable: bool, archive: Archive)
      ensures this.writable == writable && this.archive == archive
    {
      this.writable := writable;
      this.archive := archive;
    }

    /**
     * `persist_observation_record`. `early` and `late` are the archive as other writers have left it by
     * the time of the existence check and of the link. Success means that this record, and nothing
     * else, was added to the latter; it reads back with its parent exactly if its own validator accepts it,
     * which is not asked here. Failure adds nothing.
     */
    method PersistObservationRecord(o: Observation, early: Archive, late: Archive, fails: bool)
      returns (res: Result<nat, StoreError>)
      requires Anchored(archive) && Anchored(early) && Anchored(late)
      requires Keeps(archive, early) && Keeps(early, late)
      modifies `archive
      ensures Anchored(archive) && Keeps(old(archive), archive)
      ensures res.Ok? ==>
                && writable && res.value == o.body.id
                && RecordEntry(o.body.id) !in late.observations
                && archive == late.(observations := late.observations[RecordEntry(o.body.id) := Written(o)])
                && ReadObservation(archive, o.body.id) == (if o.body.valid then Ok(o) else Err(SchemaInvalid))
                && (TwoLevelClosed(archive) <==> TwoLevelClosed(late) && o.body.valid)
      ensures res.Err? ==> archive in {old(archive), early, late}
      ensures res.Ok? <==>
                && writable && AdmitObservation(old(archive).audit, o).Ok? && !fails
                && RecordEntry(o.body.id) !in early.observations && RecordEntry(o.body.id) !in late.observations
    {
      if !writable { return Err(ReadOnly); }
      var admitted := AdmitObservation(archive.audit, o);
      if admitted.Err? { return Err(admitted.error); }
      ghost var checked := archive.audit;
      archive := early;
      if RecordEntry(o.body.id) in archive.observations { return Err(IdentityExists); }
      ExtendsTransitively(checked, early.audit, late.audit);
      archive := late;
      if fails { return Err(PublicationFailed); }
      if RecordEntry(o.body.id) in archive.observations { return Err(IdentityExists); }
      archive := archive.(observations := archive.observations[RecordEntry(o.body.id) := Written(o)]);
      AddedObservation(checked, late, o);
      return Ok(o.body.id);
    }
  }

  lemma AddedObservation(checked: Store, a: Archive, o: Observation)
    requires Anchored(a) && Extends(checked, a.audit) && AdmitObservation(checked, o).Ok?
    requires RecordEntry(o.body.id) !in a.observations
    ensures var b := a.(observations := a.observations[RecordEntry(o.body.id) := Written(o)]);
            && Keeps(a, b) && Anchored(b)
            && ReadObservation(b, o.body.id) == (if o.body.valid then Ok(o) else Err(SchemaInvalid))
            && (TwoLevelClosed(b) <==> TwoLevelClosed(a) && o.body.valid)
  {
    var b := a.(observations := a.observations[RecordEntry(o.body.id) := Written(o)]);
    ParentStays(checked, a.audit, o);
    assert FiledAt(b, o.body.id);
    forall id | RecordEntry(id) in a.observations ensures FiledAt(b, id) && (ReadsAt(b, id) <==> ReadsAt(a, id)) {
      assert FiledAt(a, id);
      ObservationStays(a, b, id);
    }
    if TwoLevelClosed(b) {
      assert ReadsAt(b, o.body.id);
      forall id | RecordEntry(id) in a.observations ensures ReadsAt(a, id) { assert ReadsAt(b, id); }
    }
    if TwoLevelClosed(a) && o.body.valid {
      forall id | RecordEntry(id) in b.observations ensures ReadsAt(b, id) {
        if RecordEntry(id) in a.observations { assert ReadsAt(a, id); }
      }
    }
  }
}
