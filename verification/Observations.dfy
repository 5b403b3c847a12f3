/**
 * Configuration observations around a delivery: the validators of attempts and records, how an attempt
 * is captured, and what follows for every record the protected path stores. Times are seconds in UTC.
 */
module Observations {
  import opened Sequences

  /** A Git object identity; `width` is the length of its text. */
  datatype ObjectId = ObjectId(width: nat, id: nat)

  datatype Revision = Revision(commit: ObjectId, path: nat, blob: ObjectId, collectedAt: int)
  {
    predicate Valid() { commit.width == blob.width }
  }

  datatype Status = Changed | Unchanged | Failed | TimedOut | Ambiguous

  predicate Success(s: Status) { s == Changed || s == Unchanged }

  datatype Category =
    | SourceUnavailable | NodeUnavailable | AuthenticationFailed | ConnectionFailed | CollectionFailed
    | CollectionTimedOut | OutputFailed | HistoryUnavailable | ConcurrentCollection | InconsistentEvidence

  predicate AmbiguousCategory(c: Category) { c == ConcurrentCollection || c == InconsistentEvidence }

  datatype Attempt = Attempt(
    requestId: nat, requestedAt: int, completedAt: Option<int>, status: Status,
    before: Option<Revision>, after: Option<Revision>, failure: Option<Category>)
  {
    /** When the attempt's evidence ends. */
    function End(): int { if completedAt.Some? then completedAt.value else requestedAt }
  }

  // ---------------------------------------------------------------- the validators

  predicate OrderedTimes(a: Attempt) {
    && (a.completedAt.Some? ==> a.requestedAt <= a.completedAt.value)
    && (a.before.Some? ==> a.before.value.Valid() && a.before.value.collectedAt <= a.requestedAt)
    && (a.before.Some? ==> a.before.value.collectedAt <= a.End())
    && (a.after.Some? ==> a.after.value.Valid() && a.after.value.collectedAt <= a.End())
  }

  predicate SameIdentity(b: Revision, a: Revision) { b.commit == a.commit && b.path == a.path && b.blob == a.blob }

  predicate ValidSuccess(a: Attempt) {
    && a.completedAt.Some? && a.before.Some? && a.after.Some? && a.failure == None
    && (a.status == Unchanged ==> SameIdentity(a.before.value, a.after.value))
    && (a.status == Changed ==>
          && a.before.value.path == a.after.value.path
          && a.before.value.blob != a.after.value.blob
          && a.before.value.commit.width == a.after.value.commit.width
          && a.requestedAt <= a.after.value.collectedAt)
  }

  predicate ValidFailure(a: Attempt) {
    && a.failure.Some?
    && (a.status == Ambiguous ==> AmbiguousCategory(a.failure.value))
    && (a.status == Failed ==> a.failure.value != CollectionTimedOut && !AmbiguousCategory(a.failure.value))
    && (a.status == Failed || a.status == TimedOut ==> a.after == None)
    && (a.status == Failed ==> a.completedAt.Some?)
    && (a.status == TimedOut ==> a.failure.value == CollectionTimedOut)
  }

  /** `OxidizedObservation.validate_attempt`. */
  predicate ValidAttempt(a: Attempt) {
    OrderedTimes(a) && if Success(a.status) then ValidSuccess(a) else ValidFailure(a)
  }

  datatype Relationship = TemporallyBracketed | PostOnly | Uncorrelated

  datatype Overall = Succeeded | Partial | AllFailed | AnyAmbiguous

  datatype Record = Record(
    id: nat, generatedAt: int, parent: nat, pre: Option<Attempt>, post: Option<Attempt>,
    relationship: Relationship, overall: Overall)
  {
    function Attempts(): set<Attempt> {
      (if pre.Some? then {pre.value} else {}) + (if post.Some? then {post.value} else {})
    }
  }

  function StatusesOf(attempts: set<Attempt>): set<Status> { set a | a in attempts :: a.status }

  /** What the validator demands of the overall status. */
  function Demanded(statuses: set<Status>): Overall {
    if Ambiguous in statuses then AnyAmbiguous
    else if statuses <= {Changed, Unchanged} then Succeeded
    else if statuses !! {Changed, Unchanged} then AllFailed
    else Partial
  }

  /** `ConfigurationObservationRecord.validate_correlation`. */
  predicate ValidRecord(r: Record) {
    && (r.pre.Some? || r.post.Some?)
    && (r.pre.Some? ==> ValidAttempt(r.pre.value))
    && (r.post.Some? ==> ValidAttempt(r.post.value))
    && (match r.relationship
        case TemporallyBracketed =>
          && r.pre.Some? && r.post.Some? && r.pre.value.completedAt.Some?
          && r.pre.value.completedAt.value <= r.post.value.requestedAt
        case PostOnly => r.pre == None && r.post.Some?
        case Uncorrelated => r.post == None)
    && (forall a | a in r.Attempts() :: a.End() <= r.generatedAt)
    && r.overall == Demanded(StatusesOf(r.Attempts()))
  }

  // ---------------------------------------------------------------- binding a collection to the history

  datatype CollectionOutcome =
    | CollectionSucceeded | OutcomeFailed | OutcomeTimedOut | OutcomeConcurrent | OutcomeInconsistent

  datatype Collection = Collection(
    requestId: nat, requestedAt: int, completedAt: Option<int>, outcome: CollectionOutcome,
    upstreamStarted: Option<int>, upstreamEnded: Option<int>)
  {
    /** A job the controller reports as successful ended when it completed, and did not start before its request. */
    predicate Succeeded() {
      && outcome == CollectionSucceeded
      && completedAt.Some? && upstreamEnded == completedAt
      && upstreamStarted.Some? && requestedAt - START_TOLERANCE <= upstreamStarted.value <= upstreamEnded.value
    }
  }

  const START_TOLERANCE := 1
  const CLOCK_TOLERANCE := 5

  datatype Settled = Settled(
    collection: Collection, before: Option<Revision>, after: Revision, changed: bool, settledAt: int)
  {
    /** What the settlement loop and its validator guarantee; both revisions are of the node's one path. */
    predicate Valid() {
      && collection.Succeeded()
      && after.Valid() && (before.Some? ==> before.value.Valid() && before.value.path == after.path)
      && collection.completedAt.value <= settledAt && after.collectedAt <= settledAt
      && (changed <==> Differs(before, after))
      && (changed ==> InWindow(collection, after))
    }
  }

  predicate Differs(before: Option<Revision>, after: Revision) {
    before == None || after.commit != before.value.commit || after.blob != before.value.blob
  }

  predicate InWindow(c: Collection, after: Revision) {
    && c.upstreamStarted.Some? && c.upstreamEnded.Some?
    && c.requestedAt - CLOCK_TOLERANCE <= after.collectedAt <= c.upstreamEnded.value + CLOCK_TOLERANCE
  }

  // ---------------------------------------------------------------- the settlement loop

  /** One look at the node's path in the history: unreadable, no commit, or the newest one. */
  datatype Look = Unreadable | Absent | Newest(revision: Revision)

  /** How the settlement loop ended: with an observation, with contradicting times, or without a revision. */
  datatype Binding = Bound(settled: Settled) | Contradicted | HistoryLost

  /** A look that leaves the loop waiting: the baseline still, or still nothing where there was nothing. */
  predicate Undecided(before: Option<Revision>, look: Look) {
    if before == None then look == Absent
    else look.Newest? && look.revision.commit == before.value.commit && look.revision.blob == before.value.blob
  }

  /** A look after which the loop does not wait for another. */
  predicate Decisive(before: Option<Revision>, look: Look) {
    match look
    case Unreadable => true
    case Absent => before.Some?
    case Newest(r) => Differs(before, r)
  }

  /** Only the node's own path is ever looked at. */
  predicate OfPath(path: nat, look: Look) {
    look.Newest? ==> look.revision.Valid() && look.revision.path == path
  }

  /** `_settlement_completed_at`: `now` is the clock, and `later` the clock after the one bounded sleep. */
  function SettlementTime(c: Collection, after: Revision, now: int, later: int): (t: Option<int>)
    requires c.completedAt.Some?
    ensures t.Some? ==> t.value >= c.completedAt.value && t.value >= after.collectedAt
  {
    var evidence := if c.completedAt.value >= after.collectedAt then c.completedAt.value else after.collectedAt;
    if evidence <= now then Some(now)
    else if evidence - now > CLOCK_TOLERANCE || later < evidence then None
    else Some(later)
  }

  /** A new commit or content, dated more than five seconds before the request or after the job ended. */
  predicate Contradicts(before: Option<Revision>, c: Collection, after: Revision) {
    && (before == None || after.commit != before.value.commit || after.blob != before.value.blob)
    && !(c.upstreamStarted.Some? && c.upstreamEnded.Some?
         && c.requestedAt - 5 <= after.collectedAt <= c.upstreamEnded.value + 5)
  }

  /** Evidence more than five seconds ahead of the clock, or not reached by the one sleep. */
  predicate NeverSettles(completed: int, collected: int, now: int, later: int) {
    && (completed > now || collected > now)
    && (completed > now + 5 || collected > now + 5 || completed > later || collected > later)
  }

  /** Why the loop ended as it did, after `n` looks that decided nothing. */
  predicate EndsBecause(before: Option<Revision>, c: Collection, looks: seq<Look>, n: nat, b: Binding)
    requires n < |looks|
  {
    && (forall i | 0 <= i < n :: Undecided(before, looks[i]))
    && (!Undecided(before, looks[n]) || n == |looks| - 1)
    && (b.HistoryLost? <==> !looks[n].Newest?)
    && (b.Bound? ==>
          && looks[n] == Newest(b.settled.after)
          && b.settled.collection == c && b.settled.before == before && b.settled.Valid()
          && b.settled.changed == !Undecided(before, looks[n]))
  }

  /**
   * `bind_collection_result`. The last of `looks` is the one at which the deadline has passed. The first
   * decisive look settles the collection; only a history that shows the same revision for the whole
   * window means that nothing changed.
   */
  method BindCollection(before: Option<Revision>, c: Collection, looks: seq<Look>, path: nat, now: int, later: int)
    returns (b: Binding, n: nat)
    requires c.Succeeded() && looks != []
    requires before.Some? ==> before.value.Valid() && before.value.path == path
    requires forall look | look in looks :: OfPath(path, look)
    ensures n < |looks| && EndsBecause(before, c, looks, n, b)
    ensures b == Contradicted <==>
              looks[n].Newest? && (Contradicts(before, c, looks[n].revision)
                                   || NeverSettles(c.completedAt.value, looks[n].revision.collectedAt, now, later))
    ensures b.Bound? ==>
              && b.settled.settledAt ==
                   (if c.completedAt.value <= now && b.settled.after.collectedAt <= now then now else later)
              && (b.settled.changed <==> before == None || b.settled.after.commit != before.value.commit
                                         || b.settled.after.blob != before.value.blob)
    ensures b.Bound? && !b.settled.changed && before.Some? ==>
              n == |looks| - 1 &&
              forall i | 0 <= i < |looks| :: looks[i].Newest? && !Differs(before, looks[i].revision)
  {
    n := 0;
    while n < |looks| - 1 && !Decisive(before, looks[n])
      invariant n < |looks| && forall i | 0 <= i < n :: !Decisive(before, looks[i])
    {
      n := n + 1;
    }
    assert OfPath(path, looks[n]);
    if !looks[n].Newest? { return HistoryLost, n; }
    var after := looks[n].revision;
    var changed := Differs(before, after);
    if changed && !InWindow(c, after) { return Contradicted, n; }
    var settledAt := SettlementTime(c, after, now, later);
    if settledAt == None { return Contradicted, n; }
    b := Bound(Settled(c, before, after, changed, settledAt.value));
  }

  datatype CaptureError = BaselineUnavailable | Unclassifiable | EvidenceIncomplete | EvidenceRejected

  /** `durable_success`, before its own validation. */
  function DurableSuccess(s: Settled): Attempt
    requires s.before.Some?
  {
    Attempt(s.collection.requestId, s.collection.requestedAt, Some(s.settledAt),
            if s.changed then Changed else Unchanged, s.before, Some(s.after), None)
  }

  /**
   * A settled collection becomes durable evidence exactly when the baseline is not later than the request,
   * and a change is of content, of one identity format, and not earlier than the request: the clock
   * tolerance that settling allows is not allowed here.
   */
  lemma DurableSuccessExactly(s: Settled)
    requires s.Valid() && s.before.Some?
    ensures ValidAttempt(DurableSuccess(s)) <==>
              && s.before.value.collectedAt <= s.collection.requestedAt <= s.settledAt
              && (s.changed ==>
                    && s.before.value.blob != s.after.blob
                    && s.before.value.commit.width == s.after.commit.width
                    && s.collection.requestedAt <= s.after.collectedAt)
  {}

  /** A new commit with unchanged content settles as a change, and is then rejected as evidence of one. */
  lemma SameContentIsRejected()
    ensures exists s: Settled :: s.Valid() && s.before.Some? && s.changed && !ValidAttempt(DurableSuccess(s))
                                 && s.before.value.blob == s.after.blob
  {
    var before := Revision(ObjectId(40, 1), 0, ObjectId(40, 3), 0);
    var after := Revision(ObjectId(40, 2), 0, ObjectId(40, 3), 10);
    var c := Collection(0, 10, Some(11), CollectionSucceeded, Some(10), Some(11));
    var s := Settled(c, Some(before), after, true, 11);
    assert s.Valid() && !ValidAttempt(DurableSuccess(s));
  }

  /** A commit stamped within the tolerance but before the request settles, and is then rejected. */
  lemma EarlyCommitIsRejected()
    ensures exists s: Settled :: s.Valid() && s.before.Some? && s.changed && !ValidAttempt(DurableSuccess(s))
                                 && s.after.collectedAt == s.collection.requestedAt - 1
  {
    var before := Revision(ObjectId(40, 1), 0, ObjectId(40, 3), 0);
    var after := Revision(ObjectId(40, 2), 0, ObjectId(40, 4), 9);
    var c := Collection(0, 10, Some(11), CollectionSucceeded, Some(10), Some(11));
    var s := Settled(c, Some(before), after, true, 11);
    assert s.Valid() && !ValidAttempt(DurableSuccess(s));
  }

  function Classify(o: CollectionOutcome): Option<(Status, Category)> {
    match o
    case CollectionSucceeded => None
    case OutcomeFailed => Some((Failed, CollectionFailed))
    case OutcomeTimedOut => Some((TimedOut, CollectionTimedOut))
    case OutcomeConcurrent => Some((Ambiguous, ConcurrentCollection))
    case OutcomeInconsistent => Some((Ambiguous, InconsistentEvidence))
  }

  /** Construction followed by validation. */
  function Validated(a: Attempt, error: CaptureError): Result<Attempt, CaptureError> {
    if ValidAttempt(a) then Ok(a) else Err(error)
  }

  /** `durable_failure`. */
  function DurableFailure(c: Collection, before: Revision): (r: Result<Attempt, CaptureError>)
    ensures r.Ok? ==> ValidAttempt(r.value) && !Success(r.value.status) && r.value.before == Some(before)
  {
    match Classify(c.outcome)
    case None => Err(Unclassifiable)
    case Some((status, category)) =>
      Validated(Attempt(c.requestId, c.requestedAt, c.completedAt, status, Some(before), None, Some(category)),
                EvidenceIncomplete)
  }

  /** A reviewed failure is durable evidence exactly when its times are in order and a failure has completed. */
  lemma DurableFailureExactly(c: Collection, before: Revision)
    requires before.Valid()
    ensures DurableFailure(c, before).Ok? <==>
              && c.outcome != CollectionSucceeded
              && before.collectedAt <= c.requestedAt
              && (c.completedAt.Some? ==> c.requestedAt <= c.completedAt.value)
              && (c.outcome == OutcomeFailed ==> c.completedAt.Some?)
    ensures DurableFailure(c, before).Ok? ==>
              var a := DurableFailure(c, before).value;
              && a.requestId == c.requestId && a.requestedAt == c.requestedAt && a.completedAt == c.completedAt
              && a.before == Some(before) && a.after == None
              && (a.status, a.failure) ==
                   match c.outcome
                   case OutcomeFailed => (Failed, Some(CollectionFailed))
                   case OutcomeTimedOut => (TimedOut, Some(CollectionTimedOut))
                   case OutcomeConcurrent => (Ambiguous, Some(ConcurrentCollection))
                   case OutcomeInconsistent => (Ambiguous, Some(InconsistentEvidence))
                   case CollectionSucceeded => (a.status, a.failure)
  {}

  /**
   * A contradiction and a lost history become evidence exactly when the times are in order; the collection
   * itself was started one second before the request at the earliest.
   */
  lemma UnsettledExactly(c: Collection, before: Revision)
    requires before.Valid() && c.Succeeded()
    ensures c.upstreamEnded == c.completedAt && c.upstreamStarted.value >= c.requestedAt - 1
    ensures ValidAttempt(ContradictedAttempt(c, Some(before))) <==>
              before.collectedAt <= c.requestedAt <= c.completedAt.value
    ensures ValidAttempt(HistoryFailure(c, Some(before))) <==>
              before.collectedAt <= c.requestedAt <= c.completedAt.value
  {}

  /**
   * `capture_attempt`. Whatever the history and the controller answer, an attempt that is returned is valid
   * evidence about the baseline read first, for this one collection; and a success is what the first
   * decisive look, or the whole window of looks, showed.
   */
  method CaptureAttempt(baseline: Option<Revision>, c: Collection, looks: seq<Look>, now: int, later: int)
    returns (res: Result<Attempt, CaptureError>, n: nat)
    requires c.outcome == CollectionSucceeded ==> c.Succeeded() && looks != []
    requires baseline.Some? ==>
               baseline.value.Valid() && forall look | look in looks :: OfPath(baseline.value.path, look)
    ensures res.Ok? ==>
              && ValidAttempt(res.value) && res.value.before == baseline && baseline.Some?
              && res.value.requestId == c.requestId && res.value.requestedAt == c.requestedAt
              && (Success(res.value.status) ==> c.outcome == CollectionSucceeded)
    ensures baseline == None ==> res.Err?
    ensures baseline.Some? && c.outcome != CollectionSucceeded ==> res == DurableFailure(c, baseline.value)
    ensures baseline.Some? && c.outcome == CollectionSucceeded ==>
              && n < |looks|
              && (forall i | 0 <= i < n :: Undecided(baseline, looks[i]))
              && (!Undecided(baseline, looks[n]) || n == |looks| - 1)
              && var a := AttemptShown(c, baseline.value, looks[n], now, later);
                 (res.Ok? <==> ValidAttempt(a)) && (res.Ok? ==> res.value == a)
  {
    if baseline == None { return Err(BaselineUnavailable), 0; }
    var before := baseline.value;
    if c.outcome != CollectionSucceeded { return DurableFailure(c, before), 0; }
    var binding;
    binding, n := BindCollection(baseline, c, looks, before.path, now, later);
    match binding
    case Contradicted =>
      res := Validated(ContradictedAttempt(c, baseline), EvidenceRejected);
    case HistoryLost => res := Validated(HistoryFailure(c, baseline), EvidenceIncomplete);
    case Bound(settled) => res := Validated(DurableSuccess(settled), EvidenceRejected);
  }

  function ContradictedAttempt(c: Collection, baseline: Option<Revision>): Attempt {
    Attempt(c.requestId, c.requestedAt, c.completedAt, Ambiguous, baseline, None, Some(InconsistentEvidence))
  }

  /** What the deciding look says of a successful collection. */
  function AttemptShown(c: Collection, before: Revision, look: Look, now: int, later: int): Attempt
    requires c.completedAt.Some?
  {
    if !look.Newest? then
      Attempt(c.requestId, c.requestedAt, c.completedAt, Failed, Some(before), None, Some(HistoryUnavailable))
    else if Contradicts(Some(before), c, look.revision)
         || NeverSettles(c.completedAt.value, look.revision.collectedAt, now, later) then
      Attempt(c.requestId, c.requestedAt, c.completedAt, Ambiguous, Some(before), None, Some(InconsistentEvidence))
    else SettledAttempt(c, before, look.revision, now, later)
  }

  /** What a collection whose evidence is in order says, dated when the clock has reached all of it. */
  function SettledAttempt(c: Collection, before: Revision, after: Revision, now: int, later: int): Attempt
    requires c.completedAt.Some?
  {
    Attempt(c.requestId, c.requestedAt,
            Some(if c.completedAt.value <= now && after.collectedAt <= now then now else later),
            if after.commit != before.commit || after.blob != before.blob then Changed else Unchanged,
            Some(before), Some(after), None)
  }

  function HistoryFailure(c: Collection, baseline: Option<Revision>): Attempt {
    Attempt(c.requestId, c.requestedAt, c.completedAt, Failed, baseline, None, Some(HistoryUnavailable))
  }

  // ---------------------------------------------------------------- the protected record

  /** `_overall_status`. */
  function OverallStatus(pre: Attempt, post: Attempt): Overall {
    var statuses := {pre.status, post.status};
    if Ambiguous in statuses then AnyAmbiguous
    else if statuses <= {Changed, Unchanged} then Succeeded
    else if statuses !! {Changed, Unchanged} then AllFailed
    else Partial
  }

  datatype ObservationError = PreNotSuccessful | NotBracketed | ChainInconsistent | ParentUnavailable | RecordRejected

  /** What the protected path checks of the two loaded attempts. */
  predicate Admissible(pre: Attempt, post: Attempt) {
    && ValidAttempt(pre) && ValidAttempt(post)
    && Success(pre.status) && pre.completedAt.Some?
    && pre.completedAt.value <= post.requestedAt
    && (Success(post.status) ==> post.before == pre.after)
  }

  /** The computed status is the one the validator demands, whatever the two attempts. */
  lemma OverallStatusAgrees(pre: Attempt, post: Attempt)
    ensures OverallStatus(pre, post) == Demanded(StatusesOf({pre, post}))
  {
    assert StatusesOf({pre, post}) == {pre.status, post.status};
  }

  /** So the record built from admissible attempts is rejected only for being dated before its evidence. */
  lemma ProtectedRecordValidExactly(r: Record)
    requires r.pre.Some? && r.post.Some? && Admissible(r.pre.value, r.post.value)
    requires r.relationship == TemporallyBracketed && r.overall == OverallStatus(r.pre.value, r.post.value)
    ensures ValidRecord(r) <==> r.post.value.End() <= r.generatedAt
  {
    OverallStatusAgrees(r.pre.value, r.post.value);
    assert r.Attempts() == {r.pre.value, r.post.value};
    assert r.pre.value in r.Attempts() && r.post.value in r.Attempts();
  }

  /** The chain of times and revisions that a stored record of the protected path proves. */
  predicate Bracketed(r: Record) {
    && r.pre.Some? && r.post.Some? && r.pre.value.before.Some? && r.pre.value.after.Some?
    && r.pre.value.completedAt.Some?
    && r.pre.value.before.value.collectedAt <= r.pre.value.requestedAt
    && r.pre.value.requestedAt <= r.pre.value.completedAt.value
    && r.pre.value.after.value.collectedAt <= r.pre.value.completedAt.value
    && r.pre.value.completedAt.value <= r.post.value.requestedAt
    && r.post.value.requestedAt <= r.post.value.End() <= r.generatedAt
    && (Success(r.post.value.status) ==>
          && r.post.value.before == r.pre.value.after && r.post.value.after.Some?
          && OnOnePath([r.pre.value.before.value, r.pre.value.after.value, r.post.value.before.value,
                        r.post.value.after.value]))
    && (r.overall == Succeeded <==> Success(r.post.value.status))
    && (r.overall == AnyAmbiguous <==> r.post.value.status == Ambiguous)
    && r.overall != AllFailed
  }

  predicate OnOnePath(revisions: seq<Revision>) {
    forall i, j | 0 <= i < j < |revisions| :: revisions[i].path == revisions[j].path
  }

  /** Both successful attempts together: the content chain from before the first to after the second. */
  lemma ChainOfContents(r: Record)
    requires ValidRecord(r) && Bracketed(r) && Success(r.pre.value.status) && Success(r.post.value.status)
    ensures r.pre.value.status == Unchanged && r.post.value.status == Unchanged ==>
              r.post.value.after.value.blob == r.pre.value.before.value.blob
    ensures r.post.value.status == Unchanged <==> r.post.value.after.value.blob == r.pre.value.after.value.blob
    ensures r.post.value.status == Changed ==> r.pre.value.completedAt.value <= r.post.value.after.value.collectedAt
  {}

  /**
   * `persist_buildkite_configuration_observation`. `stored` tells whether the store accepted the record.
   * Every record it returns brackets the delivery.
   */
  method PersistProtectedObservation(pre: Option<Attempt>, post: Option<Attempt>, parent: Option<nat>, id: nat,
                                     now: int, stored: bool)
    returns (res: Result<Record, ObservationError>)
    requires pre.Some? ==> ValidAttempt(pre.value)
    requires post.Some? ==> ValidAttempt(post.value)
    ensures res.Ok? ==> ValidRecord(res.value) && Bracketed(res.value) && parent == Some(res.value.parent) && stored
    ensures res.Ok? ==> res.value.pre == pre && res.value.post == post && res.value.generatedAt == now
    ensures res.Ok? <==> pre.Some? && post.Some? && Admissible(pre.value, post.value) && parent.Some? && stored
                         && post.value.End() <= now
  {
    if pre == None || post == None { return Err(PreNotSuccessful); }
    if !Success(pre.value.status) || pre.value.completedAt == None { return Err(PreNotSuccessful); }
    if pre.value.completedAt.value > post.value.requestedAt { return Err(NotBracketed); }
    if Success(post.value.status) && post.value.before != pre.value.after { return Err(ChainInconsistent); }
    if parent == None { return Err(ParentUnavailable); }
    var record := Record(id, now, parent.value, pre, post, TemporallyBracketed, OverallStatus(pre.value, post.value));
    ProtectedRecordValidExactly(record);
    if !ValidRecord(record) { return Err(RecordRejected); }
    if !stored { return Err(RecordRejected); }
    return Ok(record);
  }
}
