/**
 * The Junos confirmed-commit transaction over one exclusive candidate session. Every call into the
 * device library may fail in any way; loading is all or nothing.
 */
module JunosTransactions {
  import opened Sequences

  const CONFIRM_MINUTES := 5

  /** How a commit call came back. */
  datatype Answer = ReportedTrue | ReportedOther | ConnectionLost | KnownFailure | OtherException

  datatype Diff = Clean | Changes(approved: bool) | DiffFailed

  /** One call into the device library, and how it went. */
  datatype Op =
    | Lock(ok: bool)
    | ShowDiff(diff: Diff)
    | Load(ok: bool)
    | CommitCheck(passed: bool)
    | GetCandidate(described: Option<bool>)
    | Commit(confirm: Option<int>, reply: Answer)
    | Rollback(ok: bool)
    | Unlock(ok: bool)
    | Close(ok: bool)

  datatype Disposition = Succeeded | Failed | Ambiguous

  /** A bounded provider error, any other exception of the caller's block, or a failed directory cleanup. */
  datatype Error = ProviderError | BlockError | DirectoryError

  function Classify(reply: Answer): Disposition {
    match reply
    case ReportedTrue => Succeeded
    case ReportedOther => Failed
    case KnownFailure => Failed
    case ConnectionLost => Ambiguous
    case OtherException => Ambiguous
  }

  // ---------------------------------------------------------------- what a log of calls tells

  /** What the caller's block may issue: no rollback, no unlock, and only commits that need confirming. */
  predicate InBlock(op: Op) {
    match op
    case ShowDiff(_) => true
    case Load(_) => true
    case CommitCheck(_) => true
    case GetCandidate(_) => true
    case Commit(confirm, _) => confirm == Some(CONFIRM_MINUTES)
    case _ => false
  }

  function Commits(log: seq<Op>): nat {
    if log == [] then 0 else Commits(log[..|log| - 1]) + if log[|log| - 1].Commit? then 1 else 0
  }

  function Loads(log: seq<Op>): nat {
    if log == [] then 0 else Loads(log[..|log| - 1]) + if log[|log| - 1] == Load(true) then 1 else 0
  }

  lemma {:induction false} Quiet(log: seq<Op>)
    requires forall i | 0 <= i < |log| :: !log[i].Commit? && log[i] != Load(true)
    ensures Commits(log) == 0 && Loads(log) == 0
  {
    if log != [] { Quiet(log[..|log| - 1]); }
  }

  lemma CountOne(log: seq<Op>, op: Op)
    ensures Commits(log + [op]) == Commits(log) + if op.Commit? then 1 else 0
    ensures Loads(log + [op]) == Loads(log) + if op == Load(true) then 1 else 0
  {
    assert (log + [op])[..|log|] == log;
  }

  /** The state of a transaction agrees with the calls its block has made. */
  ghost predicate Agrees(block: seq<Op>, loaded: bool, attempted: bool, result: Option<Disposition>) {
    && (forall i | 0 <= i < |block| :: InBlock(block[i]))
    && (loaded <==> Loads(block) > 0)
    && (attempted <==> Commits(block) > 0)
    && (attempted ==> result.Some?)
  }

  // ---------------------------------------------------------------- leaving the transaction

  /**
   * The error raised on leaving `__exit__` itself, given how the rollback (if one was due) and the unlock
   * went. A result recorded without an attempt hides a failed rollback.
   */
  function ExitError(loaded: bool, attempted: bool, result: Option<Disposition>, rolledBack: bool, unlocked: bool)
    : Option<Error>
  {
    if !unlocked then (if attempted && result.Some? then None else Some(ProviderError))
    else if loaded && !attempted && !rolledBack && result == None then Some(ProviderError)
    else None
  }

  /** The error that leaves `profiled_transaction` once its block has been entered. */
  function Leaving(loaded: bool, attempted: bool, result: Option<Disposition>, block: Option<Error>,
                   rolledBack: bool, unlocked: bool, closed: bool, cleaned: bool): Option<Error>
  {
    var raised :=
      if ExitError(loaded, attempted, result, rolledBack, unlocked).Some? then Some(ProviderError) else block;
    var bounded := if raised.Some? || !closed then Some(ProviderError) else None;
    if !cleaned then Some(DirectoryError) else if attempted then None else bounded
  }

  /** One run of a transaction whose candidate was locked: its block, what it left, and how the cleanup went. */
  datatype Run = Run(
    block: seq<Op>, loaded: bool, attempted: bool, result: Option<Disposition>, raised: Option<Error>,
    rolledBack: bool, unlocked: bool, closed: bool, cleaned: bool, commits: nat, refused: nat)
  {
    function Log(): seq<Op> {
      [Lock(true), ShowDiff(Clean)] + block + (if loaded && !attempted then [Rollback(rolledBack)] else [])
      + [Unlock(unlocked), Close(closed)]
    }

    ghost predicate Holds(log: seq<Op>) {
      && log == Log()
      && Agrees(block, loaded, attempted, result)
      && Commits(block) == commits
      && (result.Some? <==> commits + refused > 0)
    }

    function Leaves(): Option<Error> {
      Leaving(loaded, attempted, result, raised, rolledBack, unlocked, closed, cleaned)
    }

    /** Whether the cleanup after an attempted commit is known to have failed. */
    function CloseFailed(): bool {
      attempted && (!unlocked || (cleaned && (raised.Some? || !closed)))
    }
  }

  predicate HasRollback(log: seq<Op>) { exists i | 0 <= i < |log| :: log[i].Rollback? }

  /**
   * Every run of every block. An attempted commit is never rolled back and no ordinary exception leaves
   * after it. A candidate loaded and not attempted is rolled back as the last thing before the unlock,
   * and if that failed an error leaves, unless a commit was asked for with the wrong minutes.
   */
  lemma RunIsSafe(run: Run, log: seq<Op>)
    requires run.Holds(log)
    ensures run.attempted ==> !HasRollback(log) && (run.cleaned ==> run.Leaves() == None)
    ensures run.loaded && !run.attempted ==>
              var n := |log|;
              n >= 3 && log[n - 3] == Rollback(run.rolledBack) && log[n - 2] == Unlock(run.unlocked)
    ensures run.loaded && !run.attempted && !run.rolledBack && run.refused == 0 ==> run.Leaves().Some?
    ensures run.loaded && !run.attempted && run.Leaves() == None ==> (run.rolledBack || run.refused > 0)
    ensures !run.loaded ==> !HasRollback(log)
  {
    assert |run.Log()| >= 4;
    forall i | 0 <= i < |run.block| ensures !run.block[i].Rollback? { assert InBlock(run.block[i]); }
  }

  lemma CommitsAreTemporary(run: Run, log: seq<Op>)
    requires run.Holds(log)
    ensures forall op | op in log && op.Commit? :: op.confirm == Some(5)
  {
    forall op | op in log && op.Commit? ensures op.confirm == Some(5) {
      assert op in run.block;
      var i :| 0 <= i < |run.block| && run.block[i] == op;
      assert InBlock(run.block[i]);
    }
  }

  /** As many commits reach the device as the block asked for with five minutes, and no other commit. */
  lemma RunCommits(run: Run, log: seq<Op>)
    requires run.Holds(log)
    ensures Commits(log) == run.commits
    ensures forall op | op in log && op.Commit? :: op.confirm == Some(5)
  {
    CommitsAreTemporary(run, log);
    var start := [Lock(true), ShowDiff(Clean)];
    CommitsJoin(start, run.block);
    var tail := (if run.loaded && !run.attempted then [Rollback(run.rolledBack)] else [])
                + [Unlock(run.unlocked), Close(run.closed)];
    CommitsJoin(start + run.block, tail);
    Quiet(start);
    Quiet(tail);
    assert log == start + run.block + tail;
  }

  /** Only the cleanup rolls back: a rollback in the log is that of a loaded candidate never committed. */
  lemma RollbackIsCleanup(run: Run, log: seq<Op>, ok: bool)
    requires run.Holds(log) && Rollback(ok) in log
    ensures run.loaded && !run.attempted && run.rolledBack == ok && run.commits == 0
  {
    forall i | 0 <= i < |run.block| ensures run.block[i] != Rollback(ok) { assert InBlock(run.block[i]); }
    assert Rollback(ok) !in run.block;
  }

  /**
   * A failed rollback leaves without an error exactly when the block had asked for a commit with wrong
   * minutes, which records a result without an attempt, and nothing else went wrong.
   */
  lemma RollbackHiddenExactly(run: Run, log: seq<Op>)
    requires run.Holds(log) && Rollback(false) in log
    ensures run.Leaves() == None <==>
              run.refused > 0 && run.raised == None && run.unlocked && run.closed && run.cleaned
  {
    RollbackIsCleanup(run, log, false);
  }

  /**
   * What leaves any run, told from its log: a directory that could not be removed; nothing else after a commit;
   * and otherwise a bounded error if the block, the unlock or the close failed, or the rollback did and the
   * block had not asked for a commit with wrong minutes. After a commit a failed cleanup is noted instead.
   */
  lemma LeavesExactly(run: Run, log: seq<Op>)
    requires run.Holds(log)
    ensures run.Leaves() ==
              if !run.cleaned then Some(DirectoryError)
              else if Commits(log) > 0 then None
              else if run.raised.Some? || Unlock(false) in log || Close(false) in log ||
                      (Rollback(false) in log && run.refused == 0) then Some(ProviderError)
              else None
    ensures run.CloseFailed() <==>
              Commits(log) > 0 && (Unlock(false) in log || (run.cleaned && (run.raised.Some? || Close(false) in log)))
  {
    RunCommits(run, log);
    forall op | op in run.block ensures !op.Unlock? && !op.Close? && !op.Rollback? {
      var i :| 0 <= i < |run.block| && run.block[i] == op;
      assert InBlock(run.block[i]);
    }
    LastCalls(run, log);
  }

  lemma LastCalls(run: Run, log: seq<Op>)
    requires run.Holds(log) && forall op | op in run.block :: !op.Unlock? && !op.Close? && !op.Rollback?
    ensures Unlock(false) in log <==> !run.unlocked
    ensures Close(false) in log <==> !run.closed
    ensures Rollback(false) in log <==> run.loaded && !run.attempted && !run.rolledBack
  {
    var n := |log|;
    assert log[n - 1] == Close(run.closed) && log[n - 2] == Unlock(run.unlocked);
    if run.loaded && !run.attempted { assert log[n - 3] == Rollback(run.rolledBack); }
  }

  /** Load, ask for a commit with wrong minutes, end the block normally: the failed rollback is hidden. */
  lemma RollbackIsHidden(log: seq<Op>)
    requires log == [Lock(true), ShowDiff(Clean), Load(true), Rollback(false), Unlock(true), Close(true)]
    ensures var run := Run([Load(true)], true, false, Some(Failed), None, false, true, true, true, 0, 1);
            run.Holds(log) && Rollback(false) in log && run.Leaves() == None
  {
    CountOne([], Load(true));
    assert [] + [Load(true)] == [Load(true)];
    assert log[3] == Rollback(false);
  }

  /** And that does leave: one confirmed commit, everything closed, and a directory that could not be removed. */
  lemma DirectoryErrorEscapes(log: seq<Op>)
    requires log == [Lock(true), ShowDiff(Clean), Load(true), Commit(Some(CONFIRM_MINUTES), ReportedTrue), Unlock(true),
                     Close(true)]
    ensures var block := [Load(true), Commit(Some(CONFIRM_MINUTES), ReportedTrue)];
            var run := Run(block, true, true, Some(Succeeded), None, true, true, true, false, 1, 0);
            run.Holds(log) && Commits(log) > 0 && run.Leaves() == Some(DirectoryError)
  {
    var commit := Commit(Some(CONFIRM_MINUTES), ReportedTrue);
    CountOne([], Load(true));
    CountOne([Load(true)], commit);
    assert [] + [Load(true)] == [Load(true)] && [Load(true)] + [commit] == [Load(true), commit];
    var run := Run([Load(true), commit], true, true, Some(Succeeded), None, true, true, true, false, 1, 0);
    assert log == run.Log();
    RunCommits(run, log);
  }

  /** Once a commit reached the device nothing leaves but a failure to remove the temporary directory. */
  lemma NothingEscapesAfterAttempt(run: Run, log: seq<Op>)
    requires run.Holds(log) && Commits(log) > 0
    ensures run.Leaves() == if run.cleaned then None else Some(DirectoryError)
  {
    RunCommits(run, log);
  }

  lemma {:induction false} CommitsJoin(a: seq<Op>, b: seq<Op>)
    ensures Commits(a + b) == Commits(a) + Commits(b)
    decreases |b|
  {
    if b == [] {
      assert a + b == a;
    } else {
      var n := |b| - 1;
      CommitsJoin(a, b[..n]);
      assert (a + b)[..|a + b| - 1] == a + b[..n];
    }
  }

  /** Loaded, checked and shown, but not to be the approved change. */
  predicate Unapproved(calls: seq<Op>) {
    && |calls| == 4 && calls[0] == Load(true) && calls[1] == CommitCheck(true)
    && calls[2].ShowDiff? && calls[3].GetCandidate?
    && (calls[2].diff != Changes(true) || calls[3].described != Some(true))
  }

  // ---------------------------------------------------------------- the library session

  /** One device connection with its exclusive candidate, and the calls made on it. */
  class Session {
    var log: seq<Op>

    constructor ()
      ensures log == []
    {
      log := [];
    }

    method Issue(op: Op)
      modifies this
      ensures log == old(log) + [op]
    {
      log := log + [op];
    }
  }

  class JunosTransaction {
    const session: Session
    var loaded: bool
    var commitAttempted: bool
    var commitResult: Option<Disposition>
    var closeFailed: bool

    constructor (session: Session)
      ensures this.session == session && !loaded && !commitAttempted && commitResult == None && !closeFailed
    {
      this.session := session;
      loaded, commitAttempted, commitResult, closeFailed := false, false, None, false;
    }

    /** The calls since `opening`, with which the transaction's fields agree. */
    ghost predicate Block(opening: seq<Op>)
      reads this, session
    {
      opening <= session.log && Agrees(session.log[|opening|..], loaded, commitAttempted, commitResult)
    }

    /** Locking the candidate; a candidate with changes in it is given back at once. */
    method Enter() returns (ok: bool)
      modifies session
      ensures ok ==> session.log == old(session.log) + [Lock(true), ShowDiff(Clean)]
      ensures !ok ==>
                || session.log == old(session.log) + [Lock(false)]
                || exists diff: Diff, unlocked: bool ::
                     diff != Clean && session.log == old(session.log) + [Lock(true), ShowDiff(diff), Unlock(unlocked)]
    {
      var locked: bool, diff: Diff, unlocked: bool := *, *, *;
      session.Issue(Lock(locked));
      if !locked { return false; }
      session.Issue(ShowDiff(diff));
      if diff == Clean { return true; }
      session.Issue(Unlock(unlocked));
      return false;
    }

    method Note(op: Op, ghost opening: seq<Op>)
      requires Block(opening) && InBlock(op) && !op.Commit?
      modifies session, `loaded
      ensures Block(opening) && loaded == (old(loaded) || op == Load(true))
      ensures Commits(session.log[|opening|..]) == Commits(old(session.log)[|opening|..])
      ensures session.log == old(session.log) + [op]
    {
      ghost var block := session.log[|opening|..];
      session.Issue(op);
      assert session.log[|opening|..] == block + [op];
      CountOne(block, op);
      if op == Load(true) { loaded := true; }
    }

    /** `prepare`: it succeeds only on a candidate that was loaded, checked and is exactly the approved one. */
    method Prepare(ghost opening: seq<Op>) returns (ok: bool, ghost calls: seq<Op>)
      requires Block(opening)
      modifies session, `loaded
      ensures Block(opening) && session.log == old(session.log) + calls
      ensures ok <==> calls == [Load(true), CommitCheck(true), ShowDiff(Changes(true)), GetCandidate(Some(true))]
      ensures !ok ==>
                || calls == [Load(false)] || calls == [Load(true), CommitCheck(false)]
                || calls == [Load(true), CommitCheck(true), ShowDiff(DiffFailed)]
                || Unapproved(calls)
      ensures Commits(session.log[|opening|..]) == Commits(old(session.log)[|opening|..])
    {
      var load: bool, check: bool, diff: Diff, described: Option<bool> := *, *, *, *;
      calls := [Load(load)];
      Note(Load(load), opening);
      if !load { return false, calls; }
      calls := calls + [CommitCheck(check)];
      Note(CommitCheck(check), opening);
      if !check { return false, calls; }
      calls := calls + [ShowDiff(diff)];
      Note(ShowDiff(diff), opening);
      if diff == DiffFailed { return false, calls; }
      calls := calls + [GetCandidate(described)];
      Note(GetCandidate(described), opening);
      return diff == Changes(true) && described == Some(true), calls;
    }

    /** `commit_confirmed`: one commit that must be confirmed, or none at all when the minutes are wrong. */
    method CommitConfirmed(minutes: int, ghost opening: seq<Op>) returns (result: Disposition)
      requires Block(opening)
      modifies session, `commitAttempted, `commitResult
      ensures Block(opening) && commitResult == Some(result)
      ensures Commits(session.log[|opening|..]) ==
                Commits(old(session.log)[|opening|..]) + if minutes == 5 then 1 else 0
      ensures minutes != 5 ==>
                session.log == old(session.log) && commitAttempted == old(commitAttempted) && result == Failed
      ensures minutes == 5 ==>
                commitAttempted
                && exists reply :: session.log == old(session.log) + [Commit(Some(5), reply)]
                                   && (result == Succeeded <==> reply == ReportedTrue)
                                   && (result == Failed <==> reply in {ReportedOther, KnownFailure})
                                   && (result == Ambiguous <==> reply in {ConnectionLost, OtherException})
    {
      if minutes != CONFIRM_MINUTES {
        commitResult := Some(Failed);
        return Failed;
      }
      commitAttempted := true;
      var reply: Answer := *;
      ghost var block := session.log[|opening|..];
      session.Issue(Commit(Some(CONFIRM_MINUTES), reply));
      assert session.log[|opening|..] == block + [Commit(Some(CONFIRM_MINUTES), reply)];
      CountOne(block, Commit(Some(CONFIRM_MINUTES), reply));
      result := Classify(reply);
      commitResult := Some(result);
    }

    /** `__exit__`: roll back what was loaded and never attempted, then unlock whatever happened. */
    method Exit() returns (error: Option<Error>, rolledBack: bool, unlocked: bool)
      modifies session, `closeFailed
      ensures session.log == old(session.log)
                             + (if loaded && !commitAttempted then [Rollback(rolledBack)] else [])
                             + [Unlock(unlocked)]
      ensures error == ExitError(loaded, commitAttempted, commitResult, rolledBack, unlocked)
      ensures closeFailed == (old(closeFailed) || (!unlocked && commitAttempted && commitResult.Some?))
    {
      rolledBack, unlocked := *, *;
      var cleanupFailed := false;
      if loaded && !commitAttempted {
        session.Issue(Rollback(rolledBack));
        cleanupFailed := !rolledBack;
      }
      session.Issue(Unlock(unlocked));
      if !unlocked {
        if commitAttempted && commitResult.Some? {
          closeFailed := true;
          return None, rolledBack, unlocked;
        }
        return Some(ProviderError), rolledBack, unlocked;
      }
      if cleanupFailed && commitResult == None { return Some(ProviderError), rolledBack, unlocked; }
      return None, rolledBack, unlocked;
    }
  }

  // ---------------------------------------------------------------- the caller's block

  /**
   * Any block: preparations and commits in any number and order, with or without catching their errors.
   * `commits` counts its valid commit calls, `refused` those with the wrong number of minutes.
   */
  method RunBlock(t: JunosTransaction, ghost opening: seq<Op>)
    returns (raised: Option<Error>, ghost commits: nat, ghost refused: nat)
    requires t.Block(opening) && !t.commitAttempted && t.commitResult == None && t.session.log == opening
    modifies t, t.session
    ensures t.Block(opening) && t.closeFailed == old(t.closeFailed)
    ensures Commits(t.session.log[|opening|..]) == commits
    ensures t.commitResult.Some? <==> commits + refused > 0
  {
    commits, refused, raised := 0, 0, None;
    var n :| 0 <= n;
    assert t.session.log[|opening|..] == [];
    for i := 0 to n
      invariant t.Block(opening) && t.closeFailed == old(t.closeFailed)
      invariant Commits(t.session.log[|opening|..]) == commits
      invariant t.commitResult.Some? <==> commits + refused > 0
    {
      if * {
        var ok, _ := t.Prepare(opening);
        if !ok { if * { return Some(ProviderError), commits, refused; } }
      } else if * {
        var minutes: int := *;
        var _ := t.CommitConfirmed(minutes, opening);
        if minutes == CONFIRM_MINUTES { commits := commits + 1; } else { refused := refused + 1; }
      } else if * {
        return Some(BlockError), commits, refused;
      }
    }
  }

  /**
   * `profiled_transaction` around any block. The log is the opening, the block, the rollback if one is
   * due, the unlock and the close, so that no commit is ever followed by a rollback; what leaves is
   * decided by `Leaving`.
   */
  method ProfiledTransaction(session: Session)
    returns (error: Option<Error>, closeFailed: bool, ghost entered: Option<Run>)
    requires session.log == []
    modifies session
    ensures entered == None ==> error.Some? && Commits(session.log) == 0 && Loads(session.log) == 0
    ensures entered == None ==> session.log == [] || session.log[|session.log| - 1].Close?
    ensures entered.Some? ==>
              && entered.value.Holds(session.log)
              && error == entered.value.Leaves() && closeFailed == entered.value.CloseFailed()
  {
    closeFailed, entered := false, None;
    if * { return Some(ProviderError), false, None; }
    var t := new JunosTransaction(session);
    var ok := t.Enter();
    var closed: bool, cleaned: bool := *, *;
    if !ok {
      session.Issue(Close(closed));
      Quiet(session.log);
      return if cleaned then Some(ProviderError) else Some(DirectoryError), false, None;
    }
    ghost var opening := session.log;
    assert opening == [Lock(true), ShowDiff(Clean)] && session.log[|opening|..] == [];
    var raised;
    ghost var commits, refused;
    raised, commits, refused := RunBlock(t, opening);
    ghost var block := session.log[|opening|..];
    assert session.log == opening + block;
    error, closeFailed, entered := Leave(t, raised, closed, cleaned, block, commits, refused);
  }

  /** Leaving the transaction, the session and the temporary directory, in that order. */
  method Leave(t: JunosTransaction, raised: Option<Error>, closed: bool, cleaned: bool,
               ghost block: seq<Op>, ghost commits: nat, ghost refused: nat)
    returns (error: Option<Error>, closeFailed: bool, ghost entered: Option<Run>)
    requires t.session.log == [Lock(true), ShowDiff(Clean)] + block && !t.closeFailed
    requires Agrees(block, t.loaded, t.commitAttempted, t.commitResult)
    requires Commits(block) == commits && (t.commitResult.Some? <==> commits + refused > 0)
    modifies t.session, t`closeFailed
    ensures entered.Some? && entered.value.Holds(t.session.log)
    ensures error == entered.value.Leaves() && closeFailed == entered.value.CloseFailed()
  {
    var exitError, rolledBack, unlocked := t.Exit();
    t.session.Issue(Close(closed));
    entered := Some(Run(block, t.loaded, t.commitAttempted, t.commitResult, raised, rolledBack, unlocked, closed,
                        cleaned, commits, refused));
    assert t.session.log == entered.value.Log();
    var leaving := if exitError.Some? then exitError else raised;
    error := if leaving.Some? || !closed then Some(ProviderError) else None;
    if !cleaned {
      error := Some(DirectoryError);
    } else if error.Some? && t.commitAttempted {
      t.closeFailed := true;
      error := None;
    }
    closeFailed := t.closeFailed;
  }

  lemma OneCommitAtMost(log: seq<Op>)
    requires forall i | 0 <= i < |log| && i != 1 :: !log[i].Commit? && log[i] != Load(true)
    ensures Commits(log) == if |log| > 1 && log[1].Commit? then 1 else 0
  {
    if |log| > 1 {
      CommitsJoin([log[0]], [log[1]]);
      CommitsJoin([log[0]] + [log[1]], log[2..]);
      assert log == [log[0]] + [log[1]] + log[2..];
      Quiet([log[0]]);
      Quiet(log[2..]);
      CountOne([], log[1]);
      assert [] + [log[1]] == [log[1]];
    } else {
      Quiet(log);
    }
  }

  /** A log with at most one commit, at its second place, tells the disposition of that commit's answer. */
  ghost predicate Tells(log: seq<Op>, disposition: Disposition) {
    && Commits(log) <= 1
    && (disposition == Succeeded <==> Commit(None, ReportedTrue) in log)
    && (disposition == Ambiguous <==>
          exists op | op in log :: op.Commit? && op.reply in {ConnectionLost, OtherException})
    && (disposition == Failed <==> forall op | op in log && op.Commit? :: op.reply in {ReportedOther, KnownFailure})
    && (forall op | op in log && op.Commit? :: op.confirm == None)
  }

  /** The session is always closed; a lock that was not given ends it; one that was is committed once and given back. */
  predicate Confirming(log: seq<Op>) {
    && log != [] && log[|log| - 1].Close?
    && (|log| == 1 || (|log| == 2 && log[0] == Lock(false)) ||
        (|log| == 4 && log[0] == Lock(true) && log[1].Commit? && log[2].Unlock?))
  }

  lemma OneAnswerTells(lock: Op, reply: Answer, unlock: Op, close: Op)
    requires lock.Lock? && unlock.Unlock? && close.Close?
    ensures Tells([lock, Commit(None, reply), unlock, close], Classify(reply))
  {
    var log := [lock, Commit(None, reply), unlock, close];
    OneCommitAtMost(log);
    assert log[1] == Commit(None, reply) && Commit(None, reply) in log;
  }

  lemma NoCommitTells(log: seq<Op>)
    requires forall i | 0 <= i < |log| :: !log[i].Commit? && log[i] != Load(true)
    ensures Tells(log, Failed)
  {
    Quiet(log);
  }

  /**
   * `confirm_profiled`: at most one commit, reported SUCCEEDED exactly when it returned true, whatever
   * the lock, the unlock and the close of the session did; nothing is ever raised.
   */
  method ConfirmProfiled(session: Session) returns (disposition: Disposition)
    requires session.log == []
    modifies session
    ensures Confirming(session.log) && Tells(session.log, disposition)
  {
    var connected: bool, locked: bool, reply: Answer, unlocked: bool, closed: bool := *, *, *, *, *;
    disposition := Failed;
    if connected {
      session.Issue(Lock(locked));
      if locked {
        session.Issue(Commit(None, reply));
        disposition := Classify(reply);
        session.Issue(Unlock(unlocked));
      }
    }
    session.Issue(Close(closed));
    if connected && locked {
      OneAnswerTells(Lock(locked), reply, Unlock(unlocked), Close(closed));
      assert session.log == [Lock(locked), Commit(None, reply), Unlock(unlocked), Close(closed)];
    } else {
      NoCommitTells(session.log);
    }
  }
}
