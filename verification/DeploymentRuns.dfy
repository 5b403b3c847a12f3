/** What holds of every run of the deployment step, whichever external calls fail. */
module DeploymentRuns {
  import opened Sequences
  import opened Deployment

  /** The calls whose number and place matter. */
  datatype Role = Command | PostCapture | Freeing | Other

  function RoleOf(c: Call): Role {
    match c
    case DeviceCommand(_) => Command
    case CapturePost(_, _) => PostCapture
    case Release(_) => Freeing
    case _ => Other
  }

  predicate Ordinary(script: seq<Call>) { forall i | 0 <= i < |script| :: RoleOf(script[i]) == Other }

  /** How many calls of a role a journal tells of. */
  function Count(j: Journal, role: Role): nat {
    match j
    case Start => 0
    case Then(earlier, e) => Count(earlier, role) + if RoleOf(e.call) == role then 1 else 0
  }

  function Failures(j: Journal): nat {
    match j
    case Start => 0
    case Then(earlier, e) => Failures(earlier) + if e.ok then 0 else 1
  }

  predicate Happened(j: Journal, e: Event) {
    j.Then? && (j.latest == e || Happened(j.earlier, e))
  }

  // ---------------------------------------------------------------- blocks

  lemma {:induction false} DoneCounts(before: Journal, script: seq<Call>, n: nat, role: Role)
    requires n <= |script| && Ordinary(script) && role != Other
    ensures Count(Done(before, script, n), role) == Count(before, role)
  {
    if n > 0 { DoneCounts(before, script, n - 1, role); }
  }

  lemma AttemptCounts(before: Journal, script: seq<Call>, n: nat, role: Role)
    requires n <= |script| && Ordinary(script) && role != Other
    ensures Count(Attempt(before, script, n), role) == Count(before, role)
  {
    DoneCounts(before, script, n, role);
  }

  lemma AdmissionIsOrdinary(w: World)
    ensures Ordinary(Admission(w)) && Ordinary(Planning()) && Ordinary(CompliantDurable(w))
  {}

  lemma EvidenceIsOrdinary(w: World)
    ensures Ordinary(Report(w)) && Ordinary([UploadReport]) && Ordinary(Durable(w)) && Ordinary(Chronology(w))
  {}

  lemma {:induction false} DoneFails(before: Journal, script: seq<Call>, n: nat)
    requires n <= |script|
    ensures Failures(Done(before, script, n)) == Failures(before)
  {
    if n > 0 { DoneFails(before, script, n - 1); }
  }

  lemma AttemptFails(before: Journal, script: seq<Call>, n: nat)
    requires n <= |script|
    ensures Failures(Attempt(before, script, n)) == Failures(before) + if n < |script| then 1 else 0
  {
    DoneFails(before, script, n);
  }

  lemma {:induction false} DoneHappened(before: Journal, script: seq<Call>, n: nat, i: nat)
    requires i < n <= |script|
    ensures Happened(Done(before, script, n), Event(script[i], true))
  {
    if i < n - 1 { DoneHappened(before, script, n - 1, i); }
  }

  lemma {:induction false} DonePassed(before: Journal, script: seq<Call>, n: nat, moment: Journal)
    requires n <= |script| && Passed(moment, before)
    ensures Passed(moment, Done(before, script, n))
  {
    if n > 0 { DonePassed(before, script, n - 1, moment); }
  }

  lemma AttemptPassed(before: Journal, script: seq<Call>, n: nat, moment: Journal)
    requires n <= |script| && Passed(moment, before)
    ensures Passed(moment, Attempt(before, script, n))
  {
    DonePassed(before, script, n, moment);
  }

  lemma {:induction false} HappenedStays(moment: Journal, j: Journal, e: Event)
    requires Passed(moment, j) && Happened(moment, e)
    ensures Happened(j, e)
  {
    if j != moment { HappenedStays(moment, j.earlier, e); }
  }

  // ---------------------------------------------------------------- the evidence after the command

  lemma EvidenceCounts(before: Journal, w: World, p: Progress, role: Role)
    requires p.Executed? && Possible(w, p) && role != Other
    ensures Count(Evidence(before, w, p), role) == Count(Attempt(before, AfterCommand(w), p.post), role)
  {
    EvidenceIsOrdinary(w);
    var posted := Attempt(before, AfterCommand(w), p.post);
    var reported := Attempt(posted, Report(w), p.report);
    AttemptCounts(posted, Report(w), p.report, role);
    var uploaded := Attempt(reported, [UploadReport], if p.uploaded then 1 else 0);
    AttemptCounts(reported, [UploadReport], if p.uploaded then 1 else 0, role);
    AttemptCounts(uploaded, Durable(w), p.durable, role);
    AttemptCounts(Attempt(uploaded, Durable(w), p.durable), Chronology(w), p.chronology, role);
  }

  lemma EvidenceFails(before: Journal, w: World, p: Progress)
    requires p.Executed? && Possible(w, p)
    ensures Failures(Evidence(before, w, p)) >= Failures(before)
    ensures Failures(Evidence(before, w, p)) == Failures(before) <==> Published(w, p) && p.annotated
  {
    var posted := Attempt(before, AfterCommand(w), p.post);
    AttemptFails(before, AfterCommand(w), p.post);
    var reported := Attempt(posted, Report(w), p.report);
    AttemptFails(posted, Report(w), p.report);
    var uploaded := Attempt(reported, [UploadReport], if p.uploaded then 1 else 0);
    AttemptFails(reported, [UploadReport], if p.uploaded then 1 else 0);
    AttemptFails(uploaded, Durable(w), p.durable);
    AttemptFails(Attempt(uploaded, Durable(w), p.durable), Chronology(w), p.chronology);
  }

  lemma EvidencePassed(before: Journal, w: World, p: Progress)
    requires p.Executed? && Possible(w, p)
    ensures Passed(Attempt(before, AfterCommand(w), p.post), Evidence(before, w, p))
  {
    var posted := Attempt(before, AfterCommand(w), p.post);
    var reported := Attempt(posted, Report(w), p.report);
    AttemptPassed(posted, Report(w), p.report, posted);
    var uploaded := Attempt(reported, [UploadReport], if p.uploaded then 1 else 0);
    AttemptPassed(reported, [UploadReport], if p.uploaded then 1 else 0, posted);
    AttemptPassed(uploaded, Durable(w), p.durable, posted);
    AttemptPassed(Attempt(uploaded, Durable(w), p.durable), Chronology(w), p.chronology, posted);
  }

  // ---------------------------------------------------------------- the device command

  /**
   * The device command is issued at most once, exactly when the prerequisites all succeeded; it is then
   * followed by exactly one attempt to observe the result; and a reservation is released exactly once.
   */
  lemma CallsOnce(w: World, p: Progress)
    requires Possible(w, p)
    ensures Count(JournalOf(w, p), Command) == if p.Executed? then 1 else 0
    ensures Count(JournalOf(w, p), PostCapture) == if p.Executed? then 1 else 0
    ensures Count(JournalOf(w, p), Freeing) == if Reserved(p) then 1 else 0
  {
    forall role: Role | role != Other
      ensures Count(JournalOf(w, p), role) ==
                if role == Freeing then (if Reserved(p) then 1 else 0) else if p.Executed? then 1 else 0
    {
      if p.Executed? { ExecutedCounts(w, p, role); } else { UnexecutedCounts(w, p, role); }
    }
  }

  lemma UnexecutedCounts(w: World, p: Progress, role: Role)
    requires Possible(w, p) && !p.Executed? && role != Other
    ensures Count(JournalOf(w, p), role) == if role == Freeing && Reserved(p) then 1 else 0
  {
    AdmissionIsOrdinary(w);
    match p
    case Refused(admitted, _) => AttemptCounts(Start, Admission(w), admitted, role);
    case CompliantRun(published, _) =>
      DoneCounts(Start, Planning(), 2, role);
      AttemptCounts(Done(Start, Planning(), 2), CompliantDurable(w), published, role);
  }

  lemma ExecutedCounts(w: World, p: Progress, role: Role)
    requires Possible(w, p) && p.Executed? && role != Other
    ensures Count(JournalOf(w, p), role) == 1
  {
    AdmittedCounts(w, role);
    CountsAfterCommand(Commanded(w), w, p, role);
  }

  lemma CountsAfterCommand(before: Journal, w: World, p: Progress, role: Role)
    requires Possible(w, p) && p.Executed? && role != Other
    ensures Count(Released(Evidence(before, w, p), w, p), role)
            == Count(before, role) + if role == PostCapture || role == Freeing then 1 else 0
  {
    AfterCommandCounts(before, w, p.post, role);
    EvidenceCounts(before, w, p, role);
  }

  lemma AdmittedCounts(w: World, role: Role)
    requires role != Other
    ensures Count(Admitted(w), role) == 0
  {
    AdmissionIsOrdinary(w);
    DoneCounts(Start, Admission(w), |Admission(w)|, role);
  }

  lemma AfterCommandCounts(before: Journal, w: World, n: nat, role: Role)
    requires n <= |AfterCommand(w)| && role != Other
    ensures Count(Attempt(before, AfterCommand(w), n), role) ==
              Count(before, role) + if role == PostCapture then 1 else 0
  {
    var first, rest := AfterCommand(w)[..1], AfterCommand(w)[1..];
    assert AfterCommand(w) == first + rest;
    if n > 0 {
      BlocksJoin(before, first, rest, n - 1);
      assert Done(before, first, 1) == Then(Done(before, first, 0), Event(first[0], true));
      AttemptCounts(Done(before, first, 1), rest, n - 1, role);
    }
  }

  lemma {:induction false} CommandMoment(j: Journal, e: Event, script: seq<Call>, n: nat, before: Journal)
    requires n <= |script| && Passed(Then(j, e), Done(before, script, n))
    requires forall c | c in script :: c != e.call
    ensures Passed(Then(j, e), before)
  {
    if n > 0 {
      assert script[n - 1] in script;
      CommandMoment(j, e, script, n - 1, before);
    }
  }

  lemma CommandMomentInAttempt(j: Journal, e: Event, script: seq<Call>, n: nat, before: Journal)
    requires n <= |script| && Passed(Then(j, e), Attempt(before, script, n))
    requires forall c | c in script :: c != e.call
    ensures Passed(Then(j, e), before)
  {
    if n < |script| { assert script[n] in script; }
    CommandMoment(j, e, script, n, before);
  }

  lemma CommandMomentInEvidence(j: Journal, e: Event, before: Journal, w: World, p: Progress)
    requires p.Executed? && Possible(w, p) && e.call.DeviceCommand?
    requires Passed(Then(j, e), Evidence(before, w, p))
    ensures Passed(Then(j, e), before)
  {
    var posted := Attempt(before, AfterCommand(w), p.post);
    var reported := Attempt(posted, Report(w), p.report);
    var uploaded := Attempt(reported, [UploadReport], if p.uploaded then 1 else 0);
    var stored := Attempt(uploaded, Durable(w), p.durable);
    if HasReceipt(w, p) { CommandMomentInAttempt(j, e, Chronology(w), p.chronology, stored); }
    if Verified(w, p) {
      CommandMomentInAttempt(j, e, Durable(w), p.durable, uploaded);
      CommandMomentInAttempt(j, e, [UploadReport], if p.uploaded then 1 else 0, reported);
    }
    CommandMomentInAttempt(j, e, Report(w), p.report, posted);
    CommandMomentInAttempt(j, e, AfterCommand(w), p.post, before);
  }

  lemma CommandMomentAtCommand(w: World, j: Journal, e: Event)
    requires e.call.DeviceCommand? && Passed(Then(j, e), Commanded(w))
    ensures Then(j, e) == Commanded(w)
  {
    if Then(j, e) != Commanded(w) { CommandMoment(j, e, Admission(w), |Admission(w)|, Start); }
  }

  lemma NoCommandIn(j: Journal, e: Event, script: seq<Call>, n: nat, before: Journal)
    requires n <= |script| && e.call.DeviceCommand? && !Passed(Then(j, e), before)
    requires forall c | c in script :: !c.DeviceCommand?
    ensures !Passed(Then(j, e), Attempt(before, script, n))
  {
    if Passed(Then(j, e), Attempt(before, script, n)) { CommandMomentInAttempt(j, e, script, n, before); }
  }

  lemma NoCommandRefused(w: World, p: Progress, j: Journal, e: Event)
    requires Possible(w, p) && e.call.DeviceCommand? && p.Refused?
    ensures !Passed(Then(j, e), JournalOf(w, p))
  {
    AdmissionIsOrdinary(w);
    NoCommandIn(j, e, Admission(w), p.admitted, Start);
  }

  lemma NoCommandCompliant(w: World, p: Progress, j: Journal, e: Event)
    requires Possible(w, p) && e.call.DeviceCommand? && p.CompliantRun?
    ensures !Passed(Then(j, e), JournalOf(w, p))
  {
    NoCommandIn(j, e, Planning(), 2, Start);
    NoCommandIn(j, e, CompliantDurable(w), p.published, Done(Start, Planning(), 2));
  }

  lemma CommandMomentReleased(j: Journal, e: Event, before: Journal, w: World, p: Progress)
    requires p.Executed? && Possible(w, p) && e.call.DeviceCommand?
    requires Passed(Then(j, e), Released(Evidence(before, w, p), w, p))
    ensures Passed(Then(j, e), before)
  {
    CommandMomentInEvidence(j, e, before, w, p);
  }

  lemma CommandMomentInRun(w: World, p: Progress, j: Journal, e: Event)
    requires Possible(w, p) && e.call.DeviceCommand? && Passed(Then(j, e), JournalOf(w, p))
    ensures p.Executed? && Then(j, e) == Commanded(w)
  {
    if p.Executed? {
      CommandMomentReleased(j, e, Commanded(w), w, p);
      CommandMomentAtCommand(w, j, e);
    } else if p.Refused? {
      NoCommandRefused(w, p, j, e);
    } else {
      NoCommandCompliant(w, p, j, e);
    }
  }

  /**
   * At the moment the device command is issued, it is for the authorised plan, and every prerequisite
   * has succeeded: authorisation, reservation, host trust, the destination, both durable inputs with
   * their read-back, and the validated first attempt. Nothing has failed and nothing else was done.
   */
  lemma CommandNeedsEverything(w: World, p: Progress, j: Journal, digest: nat, ok: bool)
    requires Possible(w, p) && Passed(Then(j, Event(DeviceCommand(digest), ok)), JournalOf(w, p))
    ensures digest == w.plan.digest && ok == (w.exit == Some(0))
    ensures Failures(j) == 0
    ensures forall c | c in Admission(w) :: Happened(j, Event(c, true))
  {
    CommandMomentInRun(w, p, j, Event(DeviceCommand(digest), ok));
    DoneFails(Start, Admission(w), |Admission(w)|);
    forall c | c in Admission(w) ensures Happened(Admitted(w), Event(c, true)) {
      var i :| 0 <= i < |Admission(w)| && Admission(w)[i] == c;
      DoneHappened(Start, Admission(w), |Admission(w)|, i);
    }
  }

  /** Named one by one, what has happened before the command. */
  lemma PrerequisitesNamed(w: World)
    ensures forall c | c in [VerifyHumanDependency, PlanningResult, DownloadPromotion, Prerequisites, PromotionMetadata,
                             CommittedIntent, Authorize(w.plan)] :: c in Admission(w)
    ensures forall c | c in [Reserve(w.plan.device), ValidateHostTrust, ParsePromotion,
                             PrepareDestination({PlanKind, PromotionKind, ChangeRecordKind}),
                             PersistInput(PlanKind, w.plan.digest), ReadBackInput(PlanKind, w.plan.digest),
                             PersistInput(PromotionKind, w.promotion), ReadBackInput(PromotionKind, w.promotion)] ::
              c in Admission(w)
    ensures forall c | c in [OpenChronologyStore, PrepareChronology, CapturePre(w.plan), PersistAttempt(w.pre),
                             LoadAttempt(w.pre), ValidatePre(w.plan, w.pre)] :: c in Admission(w)
  {
    var script := Admission(w);
    forall i | 0 <= i < 7 ensures [VerifyHumanDependency, PlanningResult, DownloadPromotion, Prerequisites,
                                   PromotionMetadata, CommittedIntent, Authorize(w.plan)][i] in script {
      assert script[i] in script;
    }
    assert script[7] in script && script[8] in script && script[9] in script && script[10] in script;
    assert script[11] in script && script[12] in script && script[13] in script && script[14] in script;
    assert script[15] in script && script[16] in script && script[17] in script && script[18] in script;
    assert script[19] in script && script[20] in script;
  }

  lemma {:induction false} FirstOfBlock(before: Journal, script: seq<Call>, n: nat)
    requires script != [] && n <= |script|
    ensures Passed(Then(before, Event(script[0], n > 0)), Attempt(before, script, n))
  {
    if n > 0 {
      assert Done(before, script, 1) == Then(Done(before, script, 0), Event(script[0], true));
      FirstDone(before, script, n);
    }
  }

  lemma {:induction false} FirstDone(before: Journal, script: seq<Call>, n: nat)
    requires 0 < n <= |script|
    ensures Passed(Then(before, Event(script[0], true)), Done(before, script, n))
  {
    if n > 1 { FirstDone(before, script, n - 1); }
  }

  lemma {:induction false} PassedTransitively(a: Journal, b: Journal, c: Journal)
    requires Passed(a, b) && Passed(b, c)
    ensures Passed(a, c)
  {
    if c != b { PassedTransitively(a, b, c.earlier); }
  }

  /** The first thing after the command, whatever became of it, is the attempt to observe the result. */
  lemma PostCaptureFollows(w: World, p: Progress)
    requires Possible(w, p) && p.Executed?
    ensures Passed(Then(Commanded(w), Event(CapturePost(w.plan, w.preAfter), p.post > 0)), JournalOf(w, p))
  {
    var before := Commanded(w);
    FirstOfBlock(before, AfterCommand(w), p.post);
    EvidencePassed(before, w, p);
    PassedTransitively(Then(before, Event(CapturePost(w.plan, w.preAfter), p.post > 0)),
                       Attempt(before, AfterCommand(w), p.post), Evidence(before, w, p));
  }

  /** The channels are independent: a verified report is made durable even when its upload failed. */
  lemma DurableIsAttempted(w: World, p: Progress)
    requires Possible(w, p) && p.Executed? && Verified(w, p)
    ensures Happened(JournalOf(w, p), Event(PersistInput(ChangeRecordKind, w.record), p.durable > 0))
    ensures p.durable == |Durable(w)| <==> HasReceipt(w, p)
  {
    var reported := Attempt(Attempt(Commanded(w), AfterCommand(w), p.post), Report(w), p.report);
    var uploaded := Attempt(reported, [UploadReport], if p.uploaded then 1 else 0);
    var stored := Attempt(uploaded, Durable(w), p.durable);
    FirstOfBlock(uploaded, Durable(w), p.durable);
    var moment := Then(uploaded, Event(Durable(w)[0], p.durable > 0));
    AttemptPassed(stored, Chronology(w), p.chronology, stored);
    PassedTransitively(moment, stored, Evidence(Commanded(w), w, p));
    HappenedStays(moment, Evidence(Commanded(w), w, p), moment.latest);
  }

  function AllEvidence(w: World): seq<Call> {
    AfterCommand(w) + Report(w) + [UploadReport] + Durable(w) + Chronology(w)
  }

  lemma CompleteEvidence(before: Journal, w: World, p: Progress)
    requires Possible(w, p) && p.Executed? && Published(w, p)
    ensures Evidence(before, w, p) == Then(Done(before, AllEvidence(w), |AllEvidence(w)|),
                                           Event(Annotate(ReturnCode(w) != 0), p.annotated))
  {
    var first := AfterCommand(w) + Report(w);
    BlocksJoin(before, AfterCommand(w), Report(w), |Report(w)|);
    BlocksJoin(before, first, [UploadReport], 1);
    BlocksJoin(before, first + [UploadReport], Durable(w), |Durable(w)|);
    BlocksJoin(before, first + [UploadReport] + Durable(w), Chronology(w), |Chronology(w)|);
  }

  // ---------------------------------------------------------------- the return code

  /** The step returns zero exactly when nothing at all failed: no call, not the command, not the annotation. */
  lemma ZeroMeansNothingFailed(w: World, p: Progress)
    requires Possible(w, p)
    ensures Code(w, p) == 0 <==> Failures(JournalOf(w, p)) == 0
  {
    match p
    case Refused(admitted, _) => AttemptFails(Start, Admission(w), admitted);
    case CompliantRun(published, _) =>
      DoneFails(Start, Planning(), 2);
      AttemptFails(Done(Start, Planning(), 2), CompliantDurable(w), published);
    case Executed(_, _, _, _, _, _) =>
      DoneFails(Start, Admission(w), |Admission(w)|);
      EvidenceFails(Commanded(w), w, p);
  }

  lemma EvidenceHappened(w: World, p: Progress)
    requires Possible(w, p) && p.Executed? && Code(w, p) == 0
    ensures forall c | c in AllEvidence(w) :: Happened(JournalOf(w, p), Event(c, true))
    ensures Happened(JournalOf(w, p), Event(Annotate(false), true))
  {
    CompleteEvidence(Commanded(w), w, p);
    forall c | c in AllEvidence(w) ensures Happened(JournalOf(w, p), Event(c, true)) {
      var i :| 0 <= i < |AllEvidence(w)| && AllEvidence(w)[i] == c;
      DoneHappened(Commanded(w), AllEvidence(w), |AllEvidence(w)|, i);
    }
  }

  lemma PostNamed(w: World)
    ensures forall c | c in [CapturePost(w.plan, w.preAfter), PersistAttempt(w.post), LoadAttempt(w.post),
                             PostSucceeded] ::
              c in AfterCommand(w)
    ensures forall c | c in [ReadReport, ParseRecord, VerifyRecord(w.plan)] :: c in Report(w)
  {
    var script := AfterCommand(w);
    assert script[0] in script && script[1] in script && script[2] in script && script[3] in script;
    assert Report(w)[0] in Report(w) && Report(w)[1] in Report(w) && Report(w)[2] in Report(w);
  }

  lemma DurableNamed(w: World)
    ensures forall c | c in [PersistInput(ChangeRecordKind, w.record), ReadBackInput(ChangeRecordKind, w.record),
                             PersistEnvelope, ReadBackEnvelope, UploadReceipt, PublishReceipt] :: c in Durable(w)
  {
    var script := Durable(w);
    assert script[0] in script && script[1] in script && script[3] in script && script[4] in script;
    assert script[7] in script && script[8] in script;
  }

  lemma ChronologyNamed(w: World)
    ensures forall c | c in [ReadParent, PersistChild, ReadBackChild, UploadChronology, PublishChronology] ::
              c in Chronology(w)
  {
    var script := Chronology(w);
    assert script[0] in script && script[4] in script && script[5] in script && script[8] in script;
    assert script[9] in script;
  }

  /**
   * Zero after a device command means zero exit, a second attempt that was captured, stored, loaded and
   * successful, a report verified against the plan and uploaded, the record and the envelope stored and read
   * back with the receipt published, the chronology stored, read back and published, and the annotation.
   */
  lemma ZeroMeansComplete(w: World, p: Progress)
    requires Possible(w, p) && p.Executed? && Code(w, p) == 0
    ensures w.exit == Some(0) && w.frees
    ensures forall c | c in [CapturePost(w.plan, w.preAfter), PersistAttempt(w.post), LoadAttempt(w.post),
                             PostSucceeded] ::
              Happened(JournalOf(w, p), Event(c, true))
    ensures forall c | c in [ReadReport, ParseRecord, VerifyRecord(w.plan)] :: Happened(JournalOf(w, p), Event(c, true))
    ensures Happened(JournalOf(w, p), Event(UploadReport, true))
    ensures forall c | c in [PersistInput(ChangeRecordKind, w.record), ReadBackInput(ChangeRecordKind, w.record),
                             PersistEnvelope, ReadBackEnvelope, UploadReceipt, PublishReceipt] ::
              Happened(JournalOf(w, p), Event(c, true))
    ensures forall c | c in [ReadParent, PersistChild, ReadBackChild, UploadChronology, PublishChronology] ::
              Happened(JournalOf(w, p), Event(c, true))
    ensures Happened(JournalOf(w, p), Event(Annotate(false), true))
  {
    EvidenceHappened(w, p);
    PostNamed(w);
    DurableNamed(w);
    ChronologyNamed(w);
    assert AllEvidence(w)[7] == UploadReport;
  }

  lemma ComplianceNamed(w: World)
    ensures forall c | c in [PrepareDestination({ComplianceKind}), PersistInput(ComplianceKind, w.complianceRecord),
                             ReadBackInput(ComplianceKind, w.complianceRecord), PersistEnvelope, ReadBackEnvelope,
                             UploadReceipt, PublishReceipt] :: c in CompliantDurable(w)
  {
    var script := CompliantDurable(w);
    assert script[0] in script && script[1] in script && script[2] in script && script[4] in script;
    assert script[5] in script && script[8] in script && script[9] in script;
  }

  /** Zero without a command means the same of the compliance record and its envelope. */
  lemma ZeroWithoutCommandMeansComplete(w: World, p: Progress)
    requires Possible(w, p) && !p.Executed? && Code(w, p) == 0
    ensures w.compliant
    ensures forall c | c in [PrepareDestination({ComplianceKind}), PersistInput(ComplianceKind, w.complianceRecord),
                             ReadBackInput(ComplianceKind, w.complianceRecord), PersistEnvelope, ReadBackEnvelope,
                             UploadReceipt, PublishReceipt] :: Happened(JournalOf(w, p), Event(c, true))
    ensures Happened(JournalOf(w, p), Event(AnnotateCompliant(false), true))
  {
    var script, planned := CompliantDurable(w), Done(Start, Planning(), 2);
    ComplianceNamed(w);
    forall c | c in script ensures Happened(JournalOf(w, p), Event(c, true)) {
      var i :| 0 <= i < |script| && script[i] == c;
      DoneHappened(planned, script, |script|, i);
    }
  }

  /**
   * The step refuses with 2 before the device command is issued; but a command that exits with 2 gives the
   * same exit status, and so does a release that raises after the command. So a 2 proves that no device
   * command was issued exactly when neither happens.
   */
  lemma TwoProvesNoCommandExactly(w: World)
    requires !w.compliant
    ensures (forall p | Possible(w, p) && Code(w, p) == 2 :: Count(JournalOf(w, p), Command) == 0)
            <==> w.exit != Some(2) && w.frees
  {
    forall p | Possible(w, p) ensures Count(JournalOf(w, p), Command) == if p.Executed? then 1 else 0 {
      CallsOnce(w, p);
    }
    if w.exit == Some(2) || !w.frees {
      var p := Executed(0, 0, false, 0, 0, false);
      assert Possible(w, p) && Code(w, p) == 2;
    }
  }

  /**
   * An invocation that raised may have written: it is never reported as success, and as a refusal only
   * when the release raises as well. A non-zero exit is passed on.
   */
  lemma RaisedMeansThree(w: World, p: Progress)
    requires Possible(w, p) && p.Executed?
    ensures w.exit == None ==> Code(w, p) == if w.frees then 3 else 2
    ensures w.exit.Some? && w.exit.value != 0 && w.frees ==> Code(w, p) == w.exit.value
  {}

  // ---------------------------------------------------------------- the reservation and the channels

  /** A reservation is held until the very end: it is released as the last thing of the run. */
  lemma ReservationIsHeld(w: World, p: Progress)
    requires Possible(w, p) && Reserved(p)
    ensures JournalOf(w, p).latest == Event(Release(w.plan.device), w.frees)
    ensures Happened(JournalOf(w, p).earlier, Event(Reserve(w.plan.device), true))
    ensures Count(JournalOf(w, p).earlier, Freeing) == 0
  {
    CallsOnce(w, p);
    var reserve := Event(Reserve(w.plan.device), true);
    if p.Executed? {
      ReservedBefore(w);
      EvidenceKeeps(Commanded(w), w, p, reserve);
    } else {
      assert Admission(w)[RESERVED] == Reserve(w.plan.device);
      DoneHappened(Start, Admission(w), p.admitted, RESERVED);
    }
  }

  lemma ReservedBefore(w: World)
    ensures Happened(Commanded(w), Event(Reserve(w.plan.device), true))
  {
    assert Admission(w)[RESERVED] == Reserve(w.plan.device);
    DoneHappened(Start, Admission(w), |Admission(w)|, RESERVED);
  }

  lemma EvidenceKeeps(before: Journal, w: World, p: Progress, e: Event)
    requires Possible(w, p) && p.Executed? && Happened(before, e)
    ensures Happened(Evidence(before, w, p), e)
  {
    AttemptPassed(before, AfterCommand(w), p.post, before);
    EvidencePassed(before, w, p);
    PassedTransitively(before, Attempt(before, AfterCommand(w), p.post), Evidence(before, w, p));
    HappenedStays(before, Evidence(before, w, p), e);
  }

  /** A compliant device is never written to, and its code is zero or three. */
  lemma CompliantNeverWrites(w: World, p: Progress)
    requires Possible(w, p) && w.compliant
    ensures Count(JournalOf(w, p), Command) == 0 && Code(w, p) in {0, 2, 3}
    ensures Code(w, p) == 0 ==> p.CompliantRun?
  {
    CallsOnce(w, p);
  }
}
