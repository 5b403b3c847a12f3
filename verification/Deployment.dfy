/**
 * The protected single-device deployment step as a protocol of external calls. Any call may fail; what
 * the calls return when they succeed is given by a `World`. A run is told by its journal of calls.
 */
module Deployment {
  import opened Sequences

  datatype Plan = Plan(digest: nat, device: nat)

  datatype InputKind = PlanKind | PromotionKind | ChangeRecordKind | ComplianceKind

  datatype Call =
    | VerifyHumanDependency | PlanningResult | DownloadPromotion | Prerequisites | PromotionMetadata
    | CommittedIntent | Authorize(plan: Plan) | Reserve(device: nat) | ValidateHostTrust | ParsePromotion
    | PrepareDestination(kinds: set<InputKind>) | PersistInput(kind: InputKind, input: nat)
    | ReadBackInput(kind: InputKind, input: nat) | OpenChronologyStore | PrepareChronology
    | CapturePre(plan: Plan) | PersistAttempt(attempt: nat) | LoadAttempt(attempt: nat)
    | ValidatePre(plan: Plan, attempt: nat)
    | DeviceCommand(digest: nat)
    | CapturePost(plan: Plan, expectedBefore: nat) | PostSucceeded
    | ReadReport | ParseRecord | VerifyRecord(plan: Plan) | UploadReport
    | BuildEnvelope | PersistEnvelope | ReadBackEnvelope | BuildReceipt | WriteReceipt | UploadReceipt
    | PublishReceipt
    | ReadParent | BuildChild | PersistChild | ReadBackChild | BuildChronologyReceipt | WriteChronology
    | UploadChronology | PublishChronology
    | Annotate(failed: bool) | AnnotateCompliant(failed: bool)
    | Release(device: nat)

  /** One call and whether it succeeded; for the device command, whether it exited with zero. */
  datatype Event = Event(call: Call, ok: bool)

  /**
   * The answers of the calls that succeed: whether planning found the device compliant, the authorised
   * plan, the two attempts as loaded, the revision after the first, how the command ended (None: the
   * invocation raised, and the child may or may not have started), and whether closing the reservation's
   * descriptors succeeds.
   */
  datatype World = World(
    compliant: bool, complianceRecord: nat, plan: Plan, promotion: nat, record: nat,
    pre: nat, preAfter: nat, post: nat, exit: Option<int>, frees: bool)

  // ---------------------------------------------------------------- the blocks

  function Planning(): seq<Call> { [VerifyHumanDependency, PlanningResult] }

  /** The rest of what is guarded before the command, once planning found something to change. */
  function Admitting(w: World): (script: seq<Call>)
    ensures |script| == 19 && script[5] == Reserve(w.plan.device)
  {
    [DownloadPromotion, Prerequisites, PromotionMetadata, CommittedIntent, Authorize(w.plan),
     Reserve(w.plan.device), ValidateHostTrust, ParsePromotion,
     PrepareDestination({PlanKind, PromotionKind, ChangeRecordKind}),
     PersistInput(PlanKind, w.plan.digest), ReadBackInput(PlanKind, w.plan.digest),
     PersistInput(PromotionKind, w.promotion), ReadBackInput(PromotionKind, w.promotion),
     OpenChronologyStore, PrepareChronology,
     CapturePre(w.plan), PersistAttempt(w.pre), LoadAttempt(w.pre), ValidatePre(w.plan, w.pre)]
  }

  /** Everything that must succeed before the device command. */
  function Admission(w: World): (script: seq<Call>)
    ensures |script| == 21 && script[RESERVED] == Reserve(w.plan.device)
  {
    Planning() + Admitting(w)
  }

  /** The reservation is the eighth call. */
  const RESERVED := 7

  function AfterCommand(w: World): seq<Call> {
    [CapturePost(w.plan, w.preAfter), PersistAttempt(w.post), LoadAttempt(w.post), PostSucceeded]
  }

  function Report(w: World): seq<Call> { [ReadReport, ParseRecord, VerifyRecord(w.plan)] }

  /** The record and its envelope made durable, and the receipt announced. */
  function Durable(w: World): (script: seq<Call>)
    ensures |script| == 9
  {
    [PersistInput(ChangeRecordKind, w.record), ReadBackInput(ChangeRecordKind, w.record),
     BuildEnvelope, PersistEnvelope, ReadBackEnvelope, BuildReceipt, WriteReceipt, UploadReceipt, PublishReceipt]
  }

  function Chronology(w: World): (script: seq<Call>)
    ensures |script| == 10
  {
    [ReadParent, LoadAttempt(w.pre), LoadAttempt(w.post), BuildChild, PersistChild, ReadBackChild,
     BuildChronologyReceipt, WriteChronology, UploadChronology, PublishChronology]
  }

  function CompliantDurable(w: World): (script: seq<Call>)
    ensures |script| == 10
  {
    [PrepareDestination({ComplianceKind}), PersistInput(ComplianceKind, w.complianceRecord),
     ReadBackInput(ComplianceKind, w.complianceRecord),
     BuildEnvelope, PersistEnvelope, ReadBackEnvelope, BuildReceipt, WriteReceipt, UploadReceipt, PublishReceipt]
  }

  /** A journal, its latest entry outermost. */
  datatype Journal = Start | Then(earlier: Journal, latest: Event)

  /** Whether a call succeeds, which may depend on everything that happened before. */
  type Answers = (Journal, Call) -> bool

  /** `j` was at some moment `moment`. */
  predicate Passed(moment: Journal, j: Journal) {
    j == moment || (j.Then? && Passed(moment, j.earlier))
  }

  /** Every call told of went as it was answered at its moment. */
  ghost predicate Honest(j: Journal, w: World, answers: Answers) {
    forall t | Passed(t, j) && t.Then? :: t.latest.ok == Answer(t.earlier, t.latest.call, w, answers)
  }

  lemma HonestGrows(j: Journal, e: Event, w: World, answers: Answers)
    requires Honest(j, w, answers) && e.ok == Answer(j, e.call, w, answers)
    ensures Honest(Then(j, e), w, answers)
  {}

  function Answer(earlier: Journal, c: Call, w: World, answers: Answers): bool {
    match c
    case DeviceCommand(_) => w.exit == Some(0)
    case Release(_) => w.frees
    case _ => answers(earlier, c)
  }

  /** The first `n` calls of a block, each successful, after what went before. */
  function Done(before: Journal, script: seq<Call>, n: nat): Journal
    requires n <= |script|
  {
    if n == 0 then before else Then(Done(before, script, n - 1), Event(script[n - 1], true))
  }

  /** A guarded block whose first `n` calls succeeded; the next one, if any, failed and ended the block. */
  function Attempt(before: Journal, script: seq<Call>, n: nat): Journal
    requires n <= |script|
  {
    if n < |script| then Then(Done(before, script, n), Event(script[n], false)) else Done(before, script, n)
  }

  /** Two blocks run one after the other, the second only if the first completes, are one block. */
  lemma {:induction false} BlocksJoin(before: Journal, first: seq<Call>, second: seq<Call>, n: nat)
    requires n <= |second|
    ensures Done(before, first + second, |first| + n) == Done(Done(before, first, |first|), second, n)
    ensures Attempt(before, first + second, |first| + n) == Attempt(Done(before, first, |first|), second, n)
  {
    if n > 0 {
      BlocksJoin(before, first, second, n - 1);
    } else {
      FirstPart(before, first, second, |first|);
    }
  }

  lemma {:induction false} FirstPart(before: Journal, first: seq<Call>, second: seq<Call>, n: nat)
    requires n <= |first|
    ensures Done(before, first + second, n) == Done(before, first, n)
    ensures n < |first| ==> Attempt(before, first + second, n) == Attempt(before, first, n)
  {
    if n > 0 { FirstPart(before, first, second, n - 1); }
  }

  // ---------------------------------------------------------------- the runs

  /** How far each block of a run got. */
  datatype Progress =
    | Refused(admitted: nat, annotated: bool)
    | CompliantRun(published: nat, annotated: bool)
    | Executed(post: nat, report: nat, uploaded: bool, durable: nat, chronology: nat, annotated: bool)

  ghost predicate Possible(w: World, p: Progress) {
    match p
    case Refused(admitted, _) => if w.compliant then admitted < 2 else admitted < |Admission(w)|
    case CompliantRun(published, _) => w.compliant && published <= |CompliantDurable(w)|
    case Executed(post, report, _, durable, chronology, _) =>
      && !w.compliant
      && post <= |AfterCommand(w)| && report <= |Report(w)|
      && durable <= |Durable(w)| && chronology <= |Chronology(w)|
  }

  /** The report was read and belongs to the plan. */
  predicate Verified(w: World, p: Progress) requires p.Executed? { p.report == |Report(w)| }

  predicate HasReceipt(w: World, p: Progress) requires p.Executed? {
    Verified(w, p) && p.durable == |Durable(w)|
  }

  function ReturnCode(w: World): int {
    match w.exit case None => 3 case Some(code) => code
  }

  /** The publication outcome, before the final annotation. */
  predicate Published(w: World, p: Progress) requires p.Executed? {
    p.post == |AfterCommand(w)| && HasReceipt(w, p) && p.uploaded && p.chronology == |Chronology(w)|
  }

  /** Whether the device was reserved. */
  predicate Reserved(p: Progress) { p.Executed? || (p.Refused? && p.admitted > RESERVED) }

  function Released(before: Journal, w: World, p: Progress): Journal {
    if Reserved(p) then Then(before, Event(Release(w.plan.device), w.frees)) else before
  }

  function CommandEvent(w: World): Event { Event(DeviceCommand(w.plan.digest), w.exit == Some(0)) }

  function Admitted(w: World): Journal { Done(Start, Admission(w), |Admission(w)|) }

  function Commanded(w: World): Journal { Then(Admitted(w), CommandEvent(w)) }

  /** What follows the device command: four independent channels. */
  function Told(before: Journal, w: World, p: Progress): Journal
    requires p.Executed? && Possible(w, p)
  {
    var posted := Attempt(before, AfterCommand(w), p.post);
    var reported := Attempt(posted, Report(w), p.report);
    var stored :=
      if Verified(w, p) then
        Attempt(Attempt(reported, [UploadReport], if p.uploaded then 1 else 0), Durable(w), p.durable)
      else reported;
    if HasReceipt(w, p) then Attempt(stored, Chronology(w), p.chronology) else stored
  }

  /** And one annotation. */
  function Evidence(before: Journal, w: World, p: Progress): Journal
    requires p.Executed? && Possible(w, p)
  {
    Then(Told(before, w, p), Event(Annotate(ReturnCode(w) != 0 || !Published(w, p)), p.annotated))
  }

  /** The calls of a run, in order, up to the release of the reservation. */
  function Held(w: World, p: Progress): Journal
    requires Possible(w, p)
  {
    match p
    case Refused(admitted, annotated) =>
      Then(Attempt(Start, Admission(w), admitted), Event(Annotate(true), annotated))
    case CompliantRun(published, annotated) =>
      Then(Attempt(Done(Start, Planning(), 2), CompliantDurable(w), published),
           Event(AnnotateCompliant(published < |CompliantDurable(w)|), annotated))
    case Executed(_, _, _, _, _, _) =>
      Evidence(Commanded(w), w, p)
  }

  function JournalOf(w: World, p: Progress): Journal
    requires Possible(w, p)
  {
    Released(Held(w, p), w, p)
  }

  /** What `_single_deploy` returns. */
  function StepCode(w: World, p: Progress): int {
    match p
    case Refused(_, _) => 2
    case CompliantRun(published, annotated) => if published == |CompliantDurable(w)| && annotated then 0 else 3
    case Executed(_, _, _, _, _, annotated) =>
      if ReturnCode(w) != 0 then ReturnCode(w) else if Published(w, p) && annotated then 0 else 3
  }

  /** The exit status: a release that raises replaces whatever the step returned by `main`'s 2. */
  function Code(w: World, p: Progress): int {
    if Reserved(p) && !w.frees then 2 else StepCode(w, p)
  }

  // ---------------------------------------------------------------- the step itself

  class Delivery {
    const w: World
    const answers: Answers
    var journal: Journal

    constructor (w: World, answers: Answers)
      ensures this.w == w && this.answers == answers && journal == Start
    {
      this.w, this.answers := w, answers;
      journal := Start;
    }

    /** A guarded block: its calls in turn, until one fails. */
    method RunScript(script: seq<Call>) returns (ok: bool, done: nat)
      requires Honest(journal, w, answers)
      modifies `journal
      ensures Honest(journal, w, answers)
      ensures done <= |script| && (ok <==> done == |script|)
      ensures journal == Attempt(old(journal), script, done)
    {
      done := 0;
      while done < |script|
        invariant done <= |script| && journal == Done(old(journal), script, done) && Honest(journal, w, answers)
      {
        ok := Note(script[done]);
        if !ok { return false, done; }
        done := done + 1;
      }
      ok := true;
    }

    /** One external call; it may fail. */
    method Note(c: Call) returns (ok: bool)
      requires Honest(journal, w, answers)
      modifies `journal
      ensures journal == Then(old(journal), Event(c, ok)) && ok == Answer(old(journal), c, w, answers)
      ensures Honest(journal, w, answers)
    {
      ok := Answer(journal, c, w, answers);
      HonestGrows(journal, Event(c, ok), w, answers);
      journal := Then(journal, Event(c, ok));
    }

    /** The device command; how it ended is told by the world. */
    method RunCommand()
      requires Honest(journal, w, answers)
      modifies `journal
      ensures journal == Then(old(journal), CommandEvent(w)) && Honest(journal, w, answers)
    {
      var exited := Note(DeviceCommand(w.plan.digest));
    }

    /** The release of the reservation. */
    method LetGo() returns (freed: bool)
      requires Honest(journal, w, answers)
      modifies `journal
      ensures journal == Then(old(journal), Event(Release(w.plan.device), freed)) && Honest(journal, w, answers)
      ensures freed == w.frees
    {
      freed := Note(Release(w.plan.device));
    }

    /** `deploy_compliance`: no device command is ever issued on this path. */
    method DeployCompliance() returns (code: int, ghost p: Progress)
      requires journal == Done(Start, Planning(), 2) && w.compliant && Honest(journal, w, answers)
      modifies `journal
      ensures Honest(journal, w, answers)
      ensures p.CompliantRun? && Possible(w, p) && journal == Held(w, p) && code == StepCode(w, p)
    {
      var ok, published := RunScript(CompliantDurable(w));
      var annotated := Note(AnnotateCompliant(!ok));
      p := CompliantRun(published, annotated);
      code := if ok && annotated then 0 else 3;
    }

    /** No write: the prerequisites failed. */
    method Refuse(ghost admitted: nat) returns (code: int, ghost p: Progress)
      requires admitted < (if w.compliant then 2 else |Admission(w)|)
      requires journal == Attempt(Start, Admission(w), admitted) && Honest(journal, w, answers)
      modifies `journal
      ensures Honest(journal, w, answers)
      ensures p == Refused(admitted, p.annotated) && Possible(w, p)
      ensures journal == Held(w, p) && code == StepCode(w, p)
    {
      var annotated := Note(Annotate(true));
      p := Refused(admitted, annotated);
      code := 2;
    }

    /** Everything after the device command: the channels are independent of each other. */
    method Conclude(returncode: int) returns (code: int, ghost p: Progress)
      requires !w.compliant && returncode == ReturnCode(w) && Honest(journal, w, answers)
      modifies `journal
      ensures Honest(journal, w, answers)
      ensures p.Executed? && Possible(w, p) && journal == Evidence(old(journal), w, p) && code == StepCode(w, p)
    {
      var post, report, durable, chronology := 0, 0, 0, 0;
      var chronologyFailed, publicationFailed, uploaded, receipt := false, false, false, false;
      var ok;
      ok, post := RunScript(AfterCommand(w));
      chronologyFailed := !ok;
      ok, report := RunScript(Report(w));
      if !ok {
        publicationFailed := true;
      } else {
        var sent;
        uploaded, sent := RunScript([UploadReport]);
        receipt, durable := RunScript(Durable(w));
        publicationFailed := !uploaded || !receipt;
      }
      if receipt {
        ok, chronology := RunScript(Chronology(w));
        chronologyFailed := chronologyFailed || !ok;
      } else {
        chronologyFailed := true;
      }
      publicationFailed := publicationFailed || chronologyFailed;
      var annotated := Note(Annotate(returncode != 0 || publicationFailed));
      p := Executed(post, report, uploaded, durable, chronology, annotated);
      if !annotated { publicationFailed := true; }
      code := if returncode != 0 then returncode else if publicationFailed then 3 else 0;
    }

    /** `_single_deploy`: whatever fails, the run is one of the possible ones. */
    method SingleDeploy() returns (code: int, reserved: bool, ghost p: Progress)
      requires journal == Start
      modifies `journal
      ensures Honest(journal, w, answers)
      ensures Possible(w, p) && journal == Held(w, p) && code == StepCode(w, p)
      ensures reserved <==> Reserved(p)
    {
      reserved := false;
      var ok, done := RunScript(Planning());
      if ok && w.compliant { code, p := DeployCompliance(); return; }
      if ok {
        ok, done := RunScript(Admitting(w));
        BlocksJoin(Start, Planning(), Admitting(w), done);
        done := |Planning()| + done;
        reserved := done > RESERVED;
      } else {
        FirstPart(Start, Planning(), Admitting(w), done);
      }
      if !ok { code, p := Refuse(done); return; }
      var returncode := match w.exit case None => 3 case Some(exit) => exit;
      RunCommand();
      code, p := Conclude(returncode);
    }

    /** `deploy_step` as `main` runs it: the reservation is released last, and a release that raises exits with 2. */
    method DeployStep() returns (code: int, ghost p: Progress)
      requires journal == Start
      modifies `journal
      ensures Honest(journal, w, answers)
      ensures Possible(w, p) && journal == JournalOf(w, p) && code == Code(w, p)
    {
      var reserved;
      code, reserved, p := SingleDeploy();
      if reserved {
        var freed := LetGo();
        if !freed { code := 2; }
      }
    }
  }
}
