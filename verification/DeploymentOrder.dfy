/** What must have succeeded before what, in any run of the deployment step, and what is called at all. */
module DeploymentOrder {
  import opened Sequences
  import opened Deployment
  import opened DeploymentRuns

  /**
   * What a call waits for: one of these calls, if there are any, must have succeeded before it is made. An
   * attempt is loaded after it was persisted, or again for the chronology once the receipt is published.
   */
  function Awaits(w: World, c: Call): seq<Call> {
    match c
    case VerifyHumanDependency => []
    case PlanningResult => [VerifyHumanDependency]
    case DownloadPromotion => [PlanningResult]
    case Prerequisites => [DownloadPromotion]
    case PromotionMetadata => [Prerequisites]
    case CommittedIntent => [PromotionMetadata]
    case Authorize(_) => [CommittedIntent]
    case Reserve(_) => [Authorize(w.plan)]
    case ValidateHostTrust => [Reserve(w.plan.device)]
    case ParsePromotion => [ValidateHostTrust]
    case PrepareDestination(_) => [if w.compliant then PlanningResult else ParsePromotion]
    case PersistInput(PlanKind, _) => [PrepareDestination({PlanKind, PromotionKind, ChangeRecordKind})]
    case PersistInput(PromotionKind, _) => [ReadBackInput(PlanKind, w.plan.digest)]
    case PersistInput(ChangeRecordKind, _) => [VerifyRecord(w.plan)]
    case PersistInput(ComplianceKind, _) => [PrepareDestination({ComplianceKind})]
    case ReadBackInput(kind, input) => [PersistInput(kind, input)]
    case OpenChronologyStore => [ReadBackInput(PromotionKind, w.promotion)]
    case PrepareChronology => [OpenChronologyStore]
    case CapturePre(_) => [PrepareChronology]
    case PersistAttempt(attempt) => [if attempt == w.pre then CapturePre(w.plan) else CapturePost(w.plan, w.preAfter)]
    case LoadAttempt(attempt) => [PersistAttempt(attempt), PublishReceipt]
    case ValidatePre(_, attempt) => [LoadAttempt(attempt)]
    case DeviceCommand(_) => [ValidatePre(w.plan, w.pre)]
    case CapturePost(_, _) => [ValidatePre(w.plan, w.pre)]
    case PostSucceeded => [LoadAttempt(w.post)]
    case ReadReport => [ValidatePre(w.plan, w.pre)]
    case ParseRecord => [ReadReport]
    case VerifyRecord(_) => [ParseRecord]
    case UploadReport => [VerifyRecord(w.plan)]
    case BuildEnvelope =>
      [if w.compliant then ReadBackInput(ComplianceKind, w.complianceRecord)
       else ReadBackInput(ChangeRecordKind, w.record)]
    case PersistEnvelope => [BuildEnvelope]
    case ReadBackEnvelope => [PersistEnvelope]
    case BuildReceipt => [ReadBackEnvelope]
    case WriteReceipt => [BuildReceipt]
    case UploadReceipt => [WriteReceipt]
    case PublishReceipt => [UploadReceipt]
    case ReadParent => [PublishReceipt]
    case BuildChild => [LoadAttempt(w.post)]
    case PersistChild => [BuildChild]
    case ReadBackChild => [PersistChild]
    case BuildChronologyReceipt => [ReadBackChild]
    case WriteChronology => [BuildChronologyReceipt]
    case UploadChronology => [WriteChronology]
    case PublishChronology => [UploadChronology]
    case Annotate(_) => []
    case AnnotateCompliant(_) => [PlanningResult]
    case Release(device) => [Reserve(device)]
  }

  predicate Enabled(w: World, c: Call, j: Journal) {
    Awaits(w, c) == [] || exists i | 0 <= i < |Awaits(w, c)| :: Happened(j, Event(Awaits(w, c)[i], true))
  }

  /** Every call of the journal, successful or not, was made after what it waits for. */
  predicate Orderly(w: World, j: Journal) {
    j.Start? || (Orderly(w, j.earlier) && Enabled(w, j.latest.call, j.earlier))
  }

  /** What call `i` of a block waits for: the call before it, or something that had succeeded before the block. */
  predicate ReadyAt(w: World, script: seq<Call>, i: nat, before: Journal)
    requires i < |script|
  {
    Enabled(w, script[i], before) || (i > 0 && script[i - 1] in Awaits(w, script[i]))
  }

  predicate Ready(w: World, script: seq<Call>, before: Journal) {
    forall i {:trigger ReadyAt(w, script, i, before)} | 0 <= i < |script| :: ReadyAt(w, script, i, before)
  }

  lemma EnabledLater(w: World, c: Call, before: Journal, j: Journal)
    requires Enabled(w, c, before) && Passed(before, j)
    ensures Enabled(w, c, j)
  {
    if Awaits(w, c) != [] {
      var i :| 0 <= i < |Awaits(w, c)| && Happened(before, Event(Awaits(w, c)[i], true));
      HappenedStays(before, j, Event(Awaits(w, c)[i], true));
    }
  }

  lemma NextIsEnabled(w: World, script: seq<Call>, n: nat, before: Journal)
    requires n < |script| && ReadyAt(w, script, n, before)
    ensures Enabled(w, script[n], Done(before, script, n))
  {
    if Enabled(w, script[n], before) {
      PassedItself(before);
      DonePassed(before, script, n, before);
      EnabledLater(w, script[n], before, Done(before, script, n));
    } else {
      var i :| 0 <= i < |Awaits(w, script[n])| && Awaits(w, script[n])[i] == script[n - 1];
      DoneHappened(before, script, n, n - 1);
      assert Happened(Done(before, script, n), Event(Awaits(w, script[n])[i], true));
    }
  }

  lemma PassedItself(j: Journal)
    ensures Passed(j, j)
  {}

  lemma {:induction false} DoneIsOrderly(w: World, script: seq<Call>, n: nat, before: Journal)
    requires n <= |script| && Ready(w, script, before) && Orderly(w, before)
    ensures Orderly(w, Done(before, script, n))
  {
    if n > 0 {
      DoneIsOrderly(w, script, n - 1, before);
      assert ReadyAt(w, script, n - 1, before);
      NextIsEnabled(w, script, n - 1, before);
    }
  }

  lemma AttemptIsOrderly(w: World, script: seq<Call>, n: nat, before: Journal)
    requires n <= |script| && Ready(w, script, before) && Orderly(w, before)
    ensures Orderly(w, Attempt(before, script, n))
  {
    DoneIsOrderly(w, script, n, before);
    if n < |script| {
      assert ReadyAt(w, script, n, before);
      NextIsEnabled(w, script, n, before);
    }
  }

  // ---------------------------------------------------------------- block by block

  /** Call `i` of the block waits for the one before it. */
  predicate TurnAt(w: World, script: seq<Call>, i: nat)
    requires i < |script|
  {
    i > 0 && script[i - 1] in Awaits(w, script[i])
  }

  predicate InTurn(w: World, script: seq<Call>, n: nat) {
    forall i {:trigger TurnAt(w, script, i)} | n <= i < |script| :: TurnAt(w, script, i)
  }

  lemma InTurnIsReady(w: World, script: seq<Call>, n: nat, before: Journal)
    requires InTurn(w, script, n) && forall i | 0 <= i < n && i < |script| :: Enabled(w, script[i], before)
    ensures Ready(w, script, before)
  {
    forall i | 0 <= i < |script| ensures ReadyAt(w, script, i, before) {
      if i >= n { assert TurnAt(w, script, i); }
    }
  }

  lemma AdmissionFirst(w: World, i: nat)
    requires !w.compliant && 1 <= i < 11
    ensures TurnAt(w, Admission(w), i)
  {}

  lemma AdmissionLast(w: World, i: nat)
    requires !w.compliant && 11 <= i < |Admission(w)|
    ensures TurnAt(w, Admission(w), i)
  {}

  lemma DurableAt(w: World, i: nat)
    requires !w.compliant && 1 <= i < |Durable(w)|
    ensures TurnAt(w, Durable(w), i)
  {}

  lemma ComplianceAt(w: World, i: nat)
    requires w.compliant && 1 <= i < |CompliantDurable(w)|
    ensures TurnAt(w, CompliantDurable(w), i)
  {}

  lemma ChronologyAt(w: World, i: nat)
    requires 3 <= i < |Chronology(w)|
    ensures TurnAt(w, Chronology(w), i)
  {}

  lemma ShortAt(w: World)
    ensures InTurn(w, Planning(), 1) && InTurn(w, Report(w), 1) && InTurn(w, AfterCommand(w), 2)
  {}

  // ---------------------------------------------------------------- every run

  lemma Enables(w: World, earlier: Call, c: Call, before: Journal)
    requires earlier in Awaits(w, c) && Happened(before, Event(earlier, true))
    ensures Enabled(w, c, before)
  {
    var i :| 0 <= i < |Awaits(w, c)| && Awaits(w, c)[i] == earlier;
    assert Happened(before, Event(Awaits(w, c)[i], true));
  }

  lemma AdmissionIsReady(w: World)
    requires !w.compliant
    ensures Ready(w, Admission(w), Start)
  {
    var script := Admission(w);
    forall i | 1 <= i < |script| ensures TurnAt(w, script, i) {
      if i < 11 { AdmissionFirst(w, i); } else { AdmissionLast(w, i); }
    }
    InTurnIsReady(w, script, 1, Start);
  }

  lemma PlanningIsReady(w: World)
    ensures Ready(w, Planning(), Start)
  {
    ShortAt(w);
    InTurnIsReady(w, Planning(), 1, Start);
  }

  lemma AfterCommandIsReady(w: World, before: Journal)
    requires Happened(before, Event(ValidatePre(w.plan, w.pre), true))
    requires Happened(before, Event(CapturePre(w.plan), true))
    ensures Ready(w, AfterCommand(w), before)
  {
    ShortAt(w);
    var script := AfterCommand(w);
    Enables(w, ValidatePre(w.plan, w.pre), script[0], before);
    if w.post == w.pre { Enables(w, CapturePre(w.plan), script[1], before); }
    forall i | 0 <= i < |script| ensures ReadyAt(w, script, i, before) {
      if i >= 2 { assert TurnAt(w, script, i); }
    }
  }

  lemma ReportIsReady(w: World, before: Journal)
    requires Happened(before, Event(ValidatePre(w.plan, w.pre), true))
    ensures Ready(w, Report(w), before)
  {
    ShortAt(w);
    Enables(w, ValidatePre(w.plan, w.pre), Report(w)[0], before);
    InTurnIsReady(w, Report(w), 1, before);
  }

  lemma StoringIsReady(w: World, before: Journal)
    requires !w.compliant && Happened(before, Event(VerifyRecord(w.plan), true))
    ensures Ready(w, [UploadReport], before) && Ready(w, Durable(w), before)
  {
    Enables(w, VerifyRecord(w.plan), UploadReport, before);
    Enables(w, VerifyRecord(w.plan), Durable(w)[0], before);
    assert ReadyAt(w, [UploadReport], 0, before);
    forall i | 1 <= i < |Durable(w)| ensures TurnAt(w, Durable(w), i) { DurableAt(w, i); }
    InTurnIsReady(w, Durable(w), 1, before);
  }

  lemma ChronologyIsReady(w: World, before: Journal)
    requires Happened(before, Event(PublishReceipt, true))
    ensures Ready(w, Chronology(w), before)
  {
    var script := Chronology(w);
    forall i | 0 <= i < 3 ensures Enabled(w, script[i], before) { FirstOfChronology(w, i, before); }
    forall i | 3 <= i < |script| ensures TurnAt(w, script, i) { ChronologyAt(w, i); }
    InTurnIsReady(w, script, 3, before);
  }

  lemma FirstOfChronology(w: World, i: nat, before: Journal)
    requires Happened(before, Event(PublishReceipt, true)) && i < 3
    ensures Enabled(w, Chronology(w)[i], before)
  {
    assert Chronology(w)[i] in [ReadParent, LoadAttempt(w.pre), LoadAttempt(w.post)];
    Enables(w, PublishReceipt, Chronology(w)[i], before);
  }

  lemma ComplianceIsReady(w: World, before: Journal)
    requires w.compliant && Happened(before, Event(PlanningResult, true))
    ensures Ready(w, CompliantDurable(w), before)
  {
    var script := CompliantDurable(w);
    Enables(w, PlanningResult, script[0], before);
    forall i | 1 <= i < |script| ensures TurnAt(w, script, i) { ComplianceAt(w, i); }
    InTurnIsReady(w, script, 1, before);
  }

  lemma AttemptKeeps(before: Journal, script: seq<Call>, n: nat, e: Event)
    requires n <= |script| && Happened(before, e)
    ensures Happened(Attempt(before, script, n), e)
  {
    AttemptPassed(before, script, n, before);
    HappenedStays(before, Attempt(before, script, n), e);
  }

  lemma BlockHappened(before: Journal, script: seq<Call>, i: nat)
    requires i < |script|
    ensures Happened(Attempt(before, script, |script|), Event(script[i], true))
  {
    DoneHappened(before, script, |script|, i);
  }

  lemma AdmittedHappened(w: World, c: Call)
    requires c in Admission(w)
    ensures Happened(Commanded(w), Event(c, true))
  {
    var i :| 0 <= i < |Admission(w)| && Admission(w)[i] == c;
    DoneHappened(Start, Admission(w), |Admission(w)|, i);
  }

  lemma BeforeCommand(w: World)
    ensures Happened(Commanded(w), Event(ValidatePre(w.plan, w.pre), true))
    ensures Happened(Commanded(w), Event(CapturePre(w.plan), true))
    ensures Happened(Commanded(w), Event(Reserve(w.plan.device), true))
  {
    assert Admission(w)[20] == ValidatePre(w.plan, w.pre) && Admission(w)[17] == CapturePre(w.plan);
    AdmittedHappened(w, ValidatePre(w.plan, w.pre));
    AdmittedHappened(w, CapturePre(w.plan));
    AdmittedHappened(w, Admission(w)[RESERVED]);
  }

  lemma CommandedIsOrderly(w: World)
    requires !w.compliant
    ensures Orderly(w, Commanded(w))
  {
    AdmissionIsReady(w);
    DoneIsOrderly(w, Admission(w), |Admission(w)|, Start);
    assert Admission(w)[20] == ValidatePre(w.plan, w.pre);
    DoneHappened(Start, Admission(w), |Admission(w)|, 20);
    Enables(w, ValidatePre(w.plan, w.pre), DeviceCommand(w.plan.digest), Admitted(w));
  }

  /** The report, and what is stored on the strength of it. */
  lemma StoredIsOrderly(w: World, posted: Journal, report: nat, sent: nat, durable: nat)
    requires !w.compliant && Orderly(w, posted) && Happened(posted, Event(ValidatePre(w.plan, w.pre), true))
    requires report <= |Report(w)| && sent <= 1 && durable <= |Durable(w)|
    ensures var reported := Attempt(posted, Report(w), report);
            && Orderly(w, reported)
            && (report == |Report(w)| ==>
                  Orderly(w, Attempt(Attempt(reported, [UploadReport], sent), Durable(w), durable)))
  {
    ReportIsReady(w, posted);
    AttemptIsOrderly(w, Report(w), report, posted);
    if report == |Report(w)| {
      var reported := Attempt(posted, Report(w), report);
      assert Report(w)[report - 1] == VerifyRecord(w.plan);
      BlockHappened(posted, Report(w), report - 1);
      StoringIsReady(w, reported);
      AttemptIsOrderly(w, [UploadReport], sent, reported);
      AttemptKeeps(reported, [UploadReport], sent, Event(VerifyRecord(w.plan), true));
      StoringIsReady(w, Attempt(reported, [UploadReport], sent));
      AttemptIsOrderly(w, Durable(w), durable, Attempt(reported, [UploadReport], sent));
    }
  }

  lemma OneMoreInOrder(w: World, j: Journal, e: Event)
    requires Orderly(w, j) && Enabled(w, e.call, j)
    ensures Orderly(w, Then(j, e))
  {}

  lemma ToldInOrder(w: World, stored: Journal, chronology: nat)
    requires Orderly(w, stored) && Happened(stored, Event(PublishReceipt, true)) && chronology <= |Chronology(w)|
    ensures Orderly(w, Attempt(stored, Chronology(w), chronology))
  {
    ChronologyIsReady(w, stored);
    AttemptIsOrderly(w, Chronology(w), chronology, stored);
  }

  lemma ReceiptHappened(w: World, before: Journal)
    ensures Happened(Attempt(before, Durable(w), |Durable(w)|), Event(PublishReceipt, true))
  {
    assert Durable(w)[8] == PublishReceipt;
    BlockHappened(before, Durable(w), 8);
  }

  lemma PostedInOrder(w: World, before: Journal, post: nat)
    requires Orderly(w, before) && post <= |AfterCommand(w)|
    requires Happened(before, Event(ValidatePre(w.plan, w.pre), true))
    requires Happened(before, Event(CapturePre(w.plan), true))
    ensures Orderly(w, Attempt(before, AfterCommand(w), post))
    ensures Happened(Attempt(before, AfterCommand(w), post), Event(ValidatePre(w.plan, w.pre), true))
  {
    AfterCommandIsReady(w, before);
    AttemptIsOrderly(w, AfterCommand(w), post, before);
    AttemptKeeps(before, AfterCommand(w), post, Event(ValidatePre(w.plan, w.pre), true));
  }

  lemma ToldIsOrderly(w: World, p: Progress, before: Journal)
    requires Possible(w, p) && p.Executed? && Orderly(w, before)
    requires Happened(before, Event(ValidatePre(w.plan, w.pre), true))
    requires Happened(before, Event(CapturePre(w.plan), true))
    ensures Orderly(w, Told(before, w, p))
  {
    var posted := Attempt(before, AfterCommand(w), p.post);
    var sent := if p.uploaded then 1 else 0;
    PostedInOrder(w, before, p.post);
    StoredIsOrderly(w, posted, p.report, sent, p.durable);
    if HasReceipt(w, p) {
      var uploaded := Attempt(Attempt(posted, Report(w), p.report), [UploadReport], sent);
      ReceiptHappened(w, uploaded);
      ToldInOrder(w, Attempt(uploaded, Durable(w), p.durable), p.chronology);
    }
  }

  lemma RefusedInOrder(w: World, admitted: nat, annotated: bool)
    requires Possible(w, Refused(admitted, annotated))
    ensures Orderly(w, Attempt(Start, Admission(w), admitted))
  {
    if w.compliant {
      PlanningIsReady(w);
      AttemptIsOrderly(w, Planning(), admitted, Start);
      FirstPart(Start, Planning(), Admitting(w), admitted);
    } else {
      AdmissionIsReady(w);
      AttemptIsOrderly(w, Admission(w), admitted, Start);
    }
  }

  lemma CompliantInOrder(w: World, published: nat)
    requires w.compliant && published <= |CompliantDurable(w)|
    ensures var j := Attempt(Done(Start, Planning(), 2), CompliantDurable(w), published);
            Orderly(w, j) && Happened(j, Event(PlanningResult, true))
  {
    PlanningIsReady(w);
    DoneIsOrderly(w, Planning(), 2, Start);
    var planned := Done(Start, Planning(), 2);
    DoneHappened(Start, Planning(), 2, 1);
    ComplianceIsReady(w, planned);
    AttemptIsOrderly(w, CompliantDurable(w), published, planned);
    AttemptKeeps(planned, CompliantDurable(w), published, Event(PlanningResult, true));
  }

  lemma RefusalIsOrderly(w: World, admitted: nat, annotated: bool)
    requires Possible(w, Refused(admitted, annotated))
    ensures Orderly(w, Held(w, Refused(admitted, annotated)))
  {
    RefusedInOrder(w, admitted, annotated);
    OneMoreInOrder(w, Attempt(Start, Admission(w), admitted), Event(Annotate(true), annotated));
  }

  lemma ComplianceIsOrderly(w: World, published: nat, annotated: bool)
    requires Possible(w, CompliantRun(published, annotated))
    ensures Orderly(w, Held(w, CompliantRun(published, annotated)))
  {
    CompliantInOrder(w, published);
    var j := Attempt(Done(Start, Planning(), 2), CompliantDurable(w), published);
    AnnotatedInOrder(w, j, published < |CompliantDurable(w)|, annotated);
  }

  lemma AnnotatedInOrder(w: World, j: Journal, failed: bool, annotated: bool)
    requires Orderly(w, j) && Happened(j, Event(PlanningResult, true))
    ensures Orderly(w, Then(j, Event(AnnotateCompliant(failed), annotated)))
  {
    Enables(w, PlanningResult, AnnotateCompliant(failed), j);
  }

  lemma EndsInOrder(w: World, j: Journal)
    requires j.Then? && Orderly(w, j.earlier) && j.latest.call.Annotate?
    ensures Orderly(w, j)
  {}

  lemma EvidenceInOrder(w: World, p: Progress, before: Journal)
    requires Possible(w, p) && p.Executed? && Orderly(w, before)
    requires Happened(before, Event(ValidatePre(w.plan, w.pre), true))
    requires Happened(before, Event(CapturePre(w.plan), true))
    ensures Orderly(w, Evidence(before, w, p))
  {
    ToldIsOrderly(w, p, before);
    EndsInOrder(w, Evidence(before, w, p));
  }

  lemma ExecutionIsOrderly(w: World, p: Progress)
    requires Possible(w, p) && p.Executed?
    ensures Orderly(w, Held(w, p))
  {
    CommandedIsOrderly(w);
    BeforeCommand(w);
    EvidenceInOrder(w, p, Commanded(w));
  }

  lemma ReservationHappened(w: World, p: Progress)
    requires Possible(w, p) && Reserved(p)
    ensures Happened(Held(w, p), Event(Reserve(w.plan.device), true))
  {
    ReservationIsHeld(w, p);
  }

  lemma ReleaseInOrder(w: World, held: Journal)
    requires Orderly(w, held) && Happened(held, Event(Reserve(w.plan.device), true))
    ensures Orderly(w, Then(held, Event(Release(w.plan.device), w.frees)))
  {
    Enables(w, Reserve(w.plan.device), Release(w.plan.device), held);
  }

  lemma HeldIsOrderly(w: World, p: Progress)
    requires Possible(w, p)
    ensures Orderly(w, Held(w, p))
  {
    match p
    case Refused(admitted, annotated) => RefusalIsOrderly(w, admitted, annotated);
    case CompliantRun(published, annotated) => ComplianceIsOrderly(w, published, annotated);
    case Executed(_, _, _, _, _, _) => ExecutionIsOrderly(w, p);
  }

  /** In every run each call is made only after what it waits for has succeeded. */
  lemma RunIsOrderly(w: World, p: Progress)
    requires Possible(w, p)
    ensures Orderly(w, JournalOf(w, p))
  {
    HeldIsOrderly(w, p);
    if Reserved(p) {
      ReservationHappened(w, p);
      ReleaseInOrder(w, Held(w, p));
    }
  }

  // ---------------------------------------------------------------- which channels are tried

  predicate Issued(j: Journal, c: Call) { Happened(j, Event(c, true)) || Happened(j, Event(c, false)) }

  lemma {:induction false} IssuedWasEnabled(w: World, j: Journal, c: Call, waited: Call)
    requires Orderly(w, j) && Issued(j, c) && Awaits(w, c) == [waited]
    ensures Happened(j, Event(waited, true))
  {
    if j.latest.call == c {
      assert Enabled(w, c, j.earlier);
    } else {
      IssuedWasEnabled(w, j.earlier, c, waited);
    }
  }

  lemma {:induction false} DoneWithout(before: Journal, script: seq<Call>, n: nat, c: Call)
    requires n <= |script| && forall i | 0 <= i < n :: script[i] != c
    ensures Happened(Done(before, script, n), Event(c, true)) ==> Happened(before, Event(c, true))
  {
    if n > 0 { DoneWithout(before, script, n - 1, c); }
  }

  lemma AttemptWithout(before: Journal, script: seq<Call>, n: nat, c: Call)
    requires n <= |script| && forall i | 0 <= i < n :: script[i] != c
    ensures Happened(Attempt(before, script, n), Event(c, true)) ==> Happened(before, Event(c, true))
  {
    DoneWithout(before, script, n, c);
  }

  lemma NotBeforeCommand(w: World)
    ensures !Happened(Commanded(w), Event(VerifyRecord(w.plan), true))
    ensures !Happened(Commanded(w), Event(PublishReceipt, true))
  {
    DoneWithout(Start, Admission(w), |Admission(w)|, VerifyRecord(w.plan));
    DoneWithout(Start, Admission(w), |Admission(w)|, PublishReceipt);
  }

  lemma UnverifiedReport(w: World, p: Progress)
    requires Possible(w, p) && p.Executed? && !Verified(w, p)
    ensures !Happened(JournalOf(w, p), Event(VerifyRecord(w.plan), true))
  {
    NotBeforeCommand(w);
    AttemptWithout(Commanded(w), AfterCommand(w), p.post, VerifyRecord(w.plan));
    AttemptWithout(Attempt(Commanded(w), AfterCommand(w), p.post), Report(w), p.report, VerifyRecord(w.plan));
  }

  lemma NoReceipt(w: World, p: Progress)
    requires Possible(w, p) && p.Executed? && !HasReceipt(w, p)
    ensures !Happened(JournalOf(w, p), Event(PublishReceipt, true))
  {
    var posted := Attempt(Commanded(w), AfterCommand(w), p.post);
    var reported := Attempt(posted, Report(w), p.report);
    var sent := if p.uploaded then 1 else 0;
    NotBeforeCommand(w);
    AttemptWithout(Commanded(w), AfterCommand(w), p.post, PublishReceipt);
    AttemptWithout(posted, Report(w), p.report, PublishReceipt);
    if Verified(w, p) {
      AttemptWithout(reported, [UploadReport], sent, PublishReceipt);
      AttemptWithout(Attempt(reported, [UploadReport], sent), Durable(w), p.durable, PublishReceipt);
    }
  }

  lemma BlockIssued(before: Journal, script: seq<Call>, n: nat, j: Journal)
    requires script != [] && n <= |script| && Passed(Attempt(before, script, n), j)
    ensures Issued(j, script[0])
  {
    FirstOfBlock(before, script, n);
    var e := Event(script[0], n > 0);
    PassedTransitively(Then(before, e), Attempt(before, script, n), j);
    HappenedStays(Then(before, e), j, e);
  }

  lemma ChannelsPassed(before: Journal, w: World, p: Progress, j: Journal)
    requires Possible(w, p) && p.Executed? && Passed(Told(before, w, p), j)
    ensures var posted := Attempt(before, AfterCommand(w), p.post);
            var reported := Attempt(posted, Report(w), p.report);
            var uploaded := Attempt(reported, [UploadReport], if p.uploaded then 1 else 0);
            var stored := Attempt(uploaded, Durable(w), p.durable);
            && Passed(reported, j)
            && (Verified(w, p) ==> Passed(uploaded, j) && Passed(stored, j))
            && (HasReceipt(w, p) ==> Passed(Attempt(stored, Chronology(w), p.chronology), j))
  {
    var posted := Attempt(before, AfterCommand(w), p.post);
    var reported := Attempt(posted, Report(w), p.report);
    var uploaded := Attempt(reported, [UploadReport], if p.uploaded then 1 else 0);
    var stored := Attempt(uploaded, Durable(w), p.durable);
    if HasReceipt(w, p) {
      AttemptPassed(stored, Chronology(w), p.chronology, stored);
      PassedTransitively(stored, Told(before, w, p), j);
    }
    if Verified(w, p) {
      AttemptPassed(uploaded, Durable(w), p.durable, uploaded);
      PassedTransitively(uploaded, stored, j);
      AttemptPassed(reported, [UploadReport], if p.uploaded then 1 else 0, reported);
      PassedTransitively(reported, uploaded, j);
    }
  }

  lemma ChannelsIssued(w: World, p: Progress)
    requires Possible(w, p) && p.Executed?
    ensures Issued(JournalOf(w, p), ReadReport)
    ensures Verified(w, p) ==>
              Issued(JournalOf(w, p), UploadReport) && Issued(JournalOf(w, p), PersistInput(ChangeRecordKind, w.record))
    ensures HasReceipt(w, p) ==> Issued(JournalOf(w, p), ReadParent)
  {
    var before, j := Commanded(w), JournalOf(w, p);
    var posted := Attempt(before, AfterCommand(w), p.post);
    var reported := Attempt(posted, Report(w), p.report);
    var sent := if p.uploaded then 1 else 0;
    var uploaded := Attempt(reported, [UploadReport], sent);
    ToldPassed(w, p);
    ChannelsPassed(before, w, p, j);
    BlockIssued(posted, Report(w), p.report, j);
    if Verified(w, p) {
      BlockIssued(reported, [UploadReport], sent, j);
      BlockIssued(uploaded, Durable(w), p.durable, j);
    }
    if HasReceipt(w, p) {
      BlockIssued(Attempt(uploaded, Durable(w), p.durable), Chronology(w), p.chronology, j);
    }
  }

  lemma ToldPassed(w: World, p: Progress)
    requires Possible(w, p) && p.Executed?
    ensures Passed(Told(Commanded(w), w, p), JournalOf(w, p))
  {}

  lemma ChannelsWait(w: World, j: Journal)
    requires Orderly(w, j)
    ensures Issued(j, UploadReport) ==> Happened(j, Event(VerifyRecord(w.plan), true))
    ensures Issued(j, PersistInput(ChangeRecordKind, w.record)) ==> Happened(j, Event(VerifyRecord(w.plan), true))
    ensures Issued(j, ReadParent) ==> Happened(j, Event(PublishReceipt, true))
  {
    if Issued(j, UploadReport) { IssuedWasEnabled(w, j, UploadReport, VerifyRecord(w.plan)); }
    if Issued(j, PersistInput(ChangeRecordKind, w.record)) {
      IssuedWasEnabled(w, j, PersistInput(ChangeRecordKind, w.record), VerifyRecord(w.plan));
    }
    if Issued(j, ReadParent) { IssuedWasEnabled(w, j, ReadParent, PublishReceipt); }
  }

  /**
   * After the command the channels do not wait for each other's success but for what they need: the report
   * is always read; once it is verified, it is uploaded and stored, whatever became of the second attempt or
   * of the upload; and the chronology is tried once the receipt is published, and only then.
   */
  lemma ChannelsAreIndependent(w: World, p: Progress)
    requires Possible(w, p) && p.Executed?
    ensures var j := JournalOf(w, p);
            && Issued(j, ReadReport)
            && (Issued(j, UploadReport) <==> Happened(j, Event(VerifyRecord(w.plan), true)))
            && (Issued(j, PersistInput(ChangeRecordKind, w.record)) <==> Happened(j, Event(VerifyRecord(w.plan), true)))
            && (Issued(j, ReadParent) <==> Happened(j, Event(PublishReceipt, true)))
  {
    var j := JournalOf(w, p);
    RunIsOrderly(w, p);
    ChannelsIssued(w, p);
    ChannelsWait(w, j);
    if !Verified(w, p) { UnverifiedReport(w, p); }
    if !HasReceipt(w, p) { NoReceipt(w, p); }
  }

  /** The annotation says that something failed exactly when something had. */
  lemma AnnotationIsHonest(w: World, p: Progress)
    requires Possible(w, p)
    ensures var j := Held(w, p);
            && j.Then? && (j.latest.call.Annotate? || j.latest.call.AnnotateCompliant?)
            && (j.latest.call.failed <==> Failures(j.earlier) > 0)
  {
    match p
    case Refused(admitted, _) => AttemptFails(Start, Admission(w), admitted);
    case CompliantRun(published, _) =>
      DoneFails(Start, Planning(), 2);
      AttemptFails(Done(Start, Planning(), 2), CompliantDurable(w), published);
    case Executed(post, report, uploaded, durable, chronology, _) =>
      DoneFails(Start, Admission(w), |Admission(w)|);
      EvidenceFails(Commanded(w), w, Executed(post, report, uploaded, durable, chronology, true));
  }
}
