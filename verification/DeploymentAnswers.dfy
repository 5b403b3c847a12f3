/** What the answers of the calls make of the deployment step: the whole run follows from them. */
module DeploymentAnswers {
  import opened Sequences
  import opened Deployment
  import opened DeploymentRuns

  lemma {:induction false} DoneReached(before: Journal, script: seq<Call>, n: nat, m: nat)
    requires n <= m <= |script|
    ensures Passed(Done(before, script, n), Done(before, script, m))
  {
    if n < m { DoneReached(before, script, n, m - 1); }
  }

  lemma HonestBefore(before: Journal, j: Journal, w: World, answers: Answers)
    requires Passed(before, j) && Honest(j, w, answers)
    ensures Honest(before, w, answers)
  {
    forall t | Passed(t, before) && t.Then? ensures t.latest.ok == Answer(t.earlier, t.latest.call, w, answers) {
      PassedTransitively(t, before, j);
    }
  }

  lemma HonestBlock(before: Journal, script: seq<Call>, n: nat, w: World, answers: Answers)
    requires n <= |script| && Honest(Attempt(before, script, n), w, answers)
    ensures Honest(before, w, answers)
  {
    AttemptPassed(before, script, n, before);
    HonestBefore(before, Attempt(before, script, n), w, answers);
  }

  /** From one moment on, a block can only go as far as its answers let it. */
  lemma BlockIsDetermined(before: Journal, script: seq<Call>, n: nat, m: nat, w: World, answers: Answers)
    requires n <= |script| && m <= |script|
    requires Honest(Attempt(before, script, n), w, answers) && Honest(Attempt(before, script, m), w, answers)
    ensures n == m
  {
    if n < m { NotFurther(before, script, n, m, w, answers); }
    if m < n { NotFurther(before, script, m, n, w, answers); }
  }

  lemma NotFurther(before: Journal, script: seq<Call>, n: nat, m: nat, w: World, answers: Answers)
    requires n < m <= |script| && Honest(Attempt(before, script, n), w, answers)
    ensures !Honest(Attempt(before, script, m), w, answers)
  {
    var failed, passed := Attempt(before, script, n), Done(before, script, n + 1);
    assert Passed(failed, failed) && failed.latest == Event(script[n], false);
    DoneReached(before, script, n + 1, m);
    var longer := Attempt(before, script, m);
    assert Passed(passed, longer) && passed.latest == Event(script[n], true);
  }

  // ---------------------------------------------------------------- the channels after the command

  function Sent(p: Progress): nat requires p.Executed? { if p.uploaded then 1 else 0 }

  function Stored(reported: Journal, w: World, p: Progress): Journal
    requires p.Executed? && Possible(w, p)
  {
    if Verified(w, p) then Attempt(Attempt(reported, [UploadReport], Sent(p)), Durable(w), p.durable) else reported
  }

  lemma HonestStored(reported: Journal, w: World, p: Progress, answers: Answers)
    requires p.Executed? && Possible(w, p) && Honest(Stored(reported, w, p), w, answers)
    ensures Honest(reported, w, answers)
    ensures Verified(w, p) ==> Honest(Attempt(reported, [UploadReport], Sent(p)), w, answers)
  {
    if Verified(w, p) {
      var uploaded := Attempt(reported, [UploadReport], Sent(p));
      HonestBlock(uploaded, Durable(w), p.durable, w, answers);
      HonestBlock(reported, [UploadReport], Sent(p), w, answers);
    }
  }

  /** The report's upload and the durable record, after a report that was read or not. */
  lemma StoredIsDetermined(reported: Journal, w: World, p: Progress, q: Progress, answers: Answers)
    requires p.Executed? && q.Executed? && Possible(w, p) && Possible(w, q) && Verified(w, p) == Verified(w, q)
    requires Honest(Stored(reported, w, p), w, answers) && Honest(Stored(reported, w, q), w, answers)
    ensures Stored(reported, w, p) == Stored(reported, w, q) && HasReceipt(w, p) == HasReceipt(w, q)
    ensures Verified(w, p) ==> p.uploaded == q.uploaded
  {
    if Verified(w, p) {
      HonestStored(reported, w, p, answers);
      HonestStored(reported, w, q, answers);
      BlockIsDetermined(reported, [UploadReport], Sent(p), Sent(q), w, answers);
      BlockIsDetermined(Attempt(reported, [UploadReport], Sent(p)), Durable(w), p.durable, q.durable, w, answers);
    }
  }

  function Chained(stored: Journal, w: World, p: Progress): Journal
    requires p.Executed? && Possible(w, p)
  {
    if HasReceipt(w, p) then Attempt(stored, Chronology(w), p.chronology) else stored
  }

  lemma HonestChained(stored: Journal, w: World, p: Progress, answers: Answers)
    requires p.Executed? && Possible(w, p) && Honest(Chained(stored, w, p), w, answers)
    ensures Honest(stored, w, answers)
  {
    if HasReceipt(w, p) { HonestBlock(stored, Chronology(w), p.chronology, w, answers); }
  }

  lemma ChainedIsDetermined(stored: Journal, w: World, p: Progress, q: Progress, answers: Answers)
    requires p.Executed? && q.Executed? && Possible(w, p) && Possible(w, q) && HasReceipt(w, p) == HasReceipt(w, q)
    requires Honest(Chained(stored, w, p), w, answers) && Honest(Chained(stored, w, q), w, answers)
    ensures Chained(stored, w, p) == Chained(stored, w, q)
    ensures HasReceipt(w, p) ==> p.chronology == q.chronology
  {
    if HasReceipt(w, p) { BlockIsDetermined(stored, Chronology(w), p.chronology, q.chronology, w, answers); }
  }

  function Reported(before: Journal, w: World, p: Progress): Journal
    requires p.Executed? && Possible(w, p)
  {
    Attempt(Attempt(before, AfterCommand(w), p.post), Report(w), p.report)
  }

  lemma ReportedIsDetermined(before: Journal, w: World, p: Progress, q: Progress, answers: Answers)
    requires p.Executed? && q.Executed? && Possible(w, p) && Possible(w, q)
    requires Honest(Reported(before, w, p), w, answers) && Honest(Reported(before, w, q), w, answers)
    ensures p.post == q.post && p.report == q.report
  {
    HonestBlock(Attempt(before, AfterCommand(w), p.post), Report(w), p.report, w, answers);
    HonestBlock(Attempt(before, AfterCommand(w), q.post), Report(w), q.report, w, answers);
    BlockIsDetermined(before, AfterCommand(w), p.post, q.post, w, answers);
    BlockIsDetermined(Attempt(before, AfterCommand(w), p.post), Report(w), p.report, q.report, w, answers);
  }

  lemma ToldInParts(before: Journal, w: World, p: Progress)
    requires p.Executed? && Possible(w, p)
    ensures Told(before, w, p) == Chained(Stored(Reported(before, w, p), w, p), w, p)
  {}

  lemma ToldIsDetermined(before: Journal, w: World, p: Progress, q: Progress, answers: Answers)
    requires p.Executed? && q.Executed? && Possible(w, p) && Possible(w, q)
    requires Honest(Told(before, w, p), w, answers) && Honest(Told(before, w, q), w, answers)
    ensures Told(before, w, p) == Told(before, w, q) && Published(w, p) == Published(w, q)
  {
    ToldInParts(before, w, p);
    ToldInParts(before, w, q);
    var reported, other := Reported(before, w, p), Reported(before, w, q);
    HonestChained(Stored(reported, w, p), w, p, answers);
    HonestChained(Stored(other, w, q), w, q, answers);
    HonestStored(reported, w, p, answers);
    HonestStored(other, w, q, answers);
    ReportedIsDetermined(before, w, p, q, answers);
    StoredIsDetermined(reported, w, p, q, answers);
    ChainedIsDetermined(Stored(reported, w, p), w, p, q, answers);
  }

  // ---------------------------------------------------------------- whole runs

  lemma HonestLatest(j: Journal, e: Event, f: Event, w: World, answers: Answers)
    requires Honest(Then(j, e), w, answers) && Honest(Then(j, f), w, answers) && e.call == f.call
    ensures e == f && Honest(j, w, answers)
  {
    assert Passed(Then(j, e), Then(j, e)) && Passed(Then(j, f), Then(j, f)) && Passed(j, Then(j, e));
    HonestBefore(j, Then(j, e), w, answers);
  }

  lemma HonestEarlier(j: Journal, w: World, answers: Answers)
    requires Honest(j, w, answers) && j.Then?
    ensures Honest(j.earlier, w, answers)
  {
    assert Passed(j.earlier, j);
    HonestBefore(j.earlier, j, w, answers);
  }

  lemma EvidenceIsDetermined(before: Journal, w: World, p: Progress, q: Progress, answers: Answers)
    requires p.Executed? && q.Executed? && Possible(w, p) && Possible(w, q)
    requires Honest(Evidence(before, w, p), w, answers) && Honest(Evidence(before, w, q), w, answers)
    ensures Evidence(before, w, p) == Evidence(before, w, q)
    ensures Published(w, p) == Published(w, q) && p.annotated == q.annotated
  {
    HonestEarlier(Evidence(before, w, p), w, answers);
    HonestEarlier(Evidence(before, w, q), w, answers);
    ToldIsDetermined(before, w, p, q, answers);
    HonestLatest(Told(before, w, p), Evidence(before, w, p).latest, Evidence(before, w, q).latest, w, answers);
  }

  /** How far the admission of any run gets. */
  function Admittance(w: World, p: Progress): nat {
    match p
    case Refused(admitted, _) => admitted
    case CompliantRun(_, _) => 2
    case Executed(_, _, _, _, _, _) => |Admission(w)|
  }

  function Opening(w: World): seq<Call> { if w.compliant then Planning() else Admission(w) }

  lemma HonestOpening(w: World, p: Progress, answers: Answers)
    requires Possible(w, p) && Honest(Held(w, p), w, answers)
    ensures Admittance(w, p) <= |Opening(w)| && Honest(Attempt(Start, Opening(w), Admittance(w, p)), w, answers)
  {
    HonestEarlier(Held(w, p), w, answers);
    match p
    case Refused(admitted, _) => if w.compliant { FirstPart(Start, Planning(), Admitting(w), admitted); }
    case CompliantRun(published, _) =>
      HonestBlock(Done(Start, Planning(), 2), CompliantDurable(w), published, w, answers);
    case Executed(_, _, _, _, _, _) =>
      HonestCommanded(Commanded(w), w, p, answers);
      HonestEarlier(Commanded(w), w, answers);
  }

  lemma HonestCommanded(before: Journal, w: World, p: Progress, answers: Answers)
    requires p.Executed? && Possible(w, p) && Honest(Told(before, w, p), w, answers)
    ensures Honest(before, w, answers)
  {
    ToldInParts(before, w, p);
    var reported := Reported(before, w, p);
    HonestChained(Stored(reported, w, p), w, p, answers);
    HonestStored(reported, w, p, answers);
    HonestBlock(Attempt(before, AfterCommand(w), p.post), Report(w), p.report, w, answers);
    HonestBlock(before, AfterCommand(w), p.post, w, answers);
  }

  lemma HeldIsDetermined(w: World, p: Progress, q: Progress, answers: Answers)
    requires Possible(w, p) && Possible(w, q)
    requires Honest(Held(w, p), w, answers) && Honest(Held(w, q), w, answers)
    ensures Held(w, p) == Held(w, q) && StepCode(w, p) == StepCode(w, q) && Reserved(p) == Reserved(q)
  {
    HonestOpening(w, p, answers);
    HonestOpening(w, q, answers);
    BlockIsDetermined(Start, Opening(w), Admittance(w, p), Admittance(w, q), w, answers);
    if p.Executed? {
      EvidenceIsDetermined(Commanded(w), w, p, q, answers);
    } else {
      HonestEarlier(Held(w, p), w, answers);
      HonestEarlier(Held(w, q), w, answers);
      if p.CompliantRun? {
        var planned := Done(Start, Planning(), 2);
        BlockIsDetermined(planned, CompliantDurable(w), p.published, q.published, w, answers);
      }
      HonestLatest(Held(w, p).earlier, Held(w, p).latest, Held(w, q).latest, w, answers);
    }
  }

  /**
   * The run follows from the answers: two runs of the step whose calls are answered alike, at every moment and
   * in whatever way depends on what happened before, make the same calls and end with the same exit status.
   */
  lemma RunIsDetermined(w: World, p: Progress, q: Progress, answers: Answers)
    requires Possible(w, p) && Possible(w, q)
    requires Honest(JournalOf(w, p), w, answers) && Honest(JournalOf(w, q), w, answers)
    ensures JournalOf(w, p) == JournalOf(w, q) && Code(w, p) == Code(w, q)
  {
    if Reserved(p) { HonestEarlier(JournalOf(w, p), w, answers); }
    if Reserved(q) { HonestEarlier(JournalOf(w, q), w, answers); }
    HeldIsDetermined(w, p, q, answers);
  }

  lemma {:induction false} NothingFails(j: Journal, w: World, answers: Answers)
    requires Honest(j, w, answers) && w.frees && (w.exit == Some(0) || Count(j, Command) == 0)
    requires forall earlier, c :: answers(earlier, c)
    ensures Failures(j) == 0
  {
    if j.Then? {
      assert Passed(j, j);
      HonestEarlier(j, w, answers);
      NothingFails(j.earlier, w, answers);
    }
  }

  /** Where every call succeeds, a compliant device is left alone and any other is written to, and the exit is zero. */
  lemma AllGoesWell(w: World, p: Progress, answers: Answers)
    requires Possible(w, p) && Honest(JournalOf(w, p), w, answers)
    requires w.frees && (w.compliant || w.exit == Some(0)) && forall earlier, c :: answers(earlier, c)
    ensures Code(w, p) == 0 && (if w.compliant then p.CompliantRun? else p.Executed?)
  {
    CallsOnce(w, p);
    NothingFails(JournalOf(w, p), w, answers);
    ZeroMeansNothingFailed(w, p);
  }
}
