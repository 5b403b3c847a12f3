/**
 * Publishing one file by temporary file and hard link, shared by every store. Directory entries name
 * inodes, inodes hold bytes, a write appends to the inode behind the open descriptor, and `link`
 * gives an inode a second name or fails because the name is taken.
 */
module Publication {
  import opened Sequences

  newtype Byte = b: int | 0 <= b < 256

  type Bytes = seq<Byte>

  datatype Entry = Temporary(publisher: nat) | Final(name: nat)

  datatype Outcome = Published | Exists | Failed

  // ---------------------------------------------------------------- many publishers, step by step

  /** What publisher number `p` was asked to publish: `jobs[p]`. Its temporary name is its own. */
  datatype Job = Job(name: nat, content: Bytes)

  datatype Phase =
    | Idle
    | Writing(written: nat)
    | Flushed
    | Closed
    | Linked
    | Unlinking
    | Cleanup(outcome: Outcome)
    | Finished(outcome: Outcome)
    | Crashed

  datatype State = State(entries: map<Entry, nat>, inodes: map<nat, Bytes>, phases: seq<Phase>)

  datatype Action =
    | Open | Write(count: nat) | Flush | Close | Link | SyncDirectory | Unlink(removed: bool)
    | RemoveTemporary(removed: bool)
    | Fail    // the system call raises an error of its own
    | Crash

  function Initial(jobs: seq<Job>): State {
    State(map[], map[], seq(|jobs|, _ => Idle))
  }

  predicate Next(jobs: seq<Job>, s: State, p: nat, action: Action, s': State) {
    && p < |jobs| == |s.phases|
    && var phase, job := s.phases[p], jobs[p];
       match action
       case Open =>
         phase == Idle &&
         s' == State(s.entries[Temporary(p) := p], s.inodes[p := []], s.phases[p := Writing(0)])
       case Write(count) =>
         && phase.Writing? && p in s.inodes && 0 < count <= |job.content| - phase.written
         && s' == s.(inodes := s.inodes[p := s.inodes[p] + job.content[phase.written..phase.written + count]],
                     phases := s.phases[p := Writing(phase.written + count)])
       case Flush => phase == Writing(|job.content|) && s' == s.(phases := s.phases[p := Flushed])
       case Close => phase == Flushed && s' == s.(phases := s.phases[p := Closed])
       case Link =>
         phase == Closed &&
         s' == if Final(job.name) in s.entries then s.(phases := s.phases[p := Cleanup(Exists)])
               else s.(entries := s.entries[Final(job.name) := p], phases := s.phases[p := Linked])
       case SyncDirectory => phase == Linked && s' == s.(phases := s.phases[p := Cleanup(Published)])
       case Unlink(removed) =>
         phase == Unlinking &&
         s' == s.(entries := if removed then s.entries - {Final(job.name)} else s.entries,
                  phases := s.phases[p := Cleanup(Failed)])
       case RemoveTemporary(removed) =>
         phase.Cleanup? &&
         s' == s.(entries := if removed then s.entries - {Temporary(p)} else s.entries,
                  phases := s.phases[p := Finished(phase.outcome)])
       case Fail =>
         && (phase in {Idle, Flushed, Closed, Linked} || phase.Writing?)
         && s' == s.(phases := s.phases[p := if phase == Linked then Unlinking else Cleanup(Failed)])
       case Crash => s' == s.(phases := s.phases[p := Crashed])
  }

  datatype Move = Move(publisher: nat, action: Action)

  ghost predicate IsRun(jobs: seq<Job>, states: seq<State>, moves: seq<Move>) {
    && |states| == |moves| + 1
    && states[0] == Initial(jobs)
    && forall i | 0 <= i < |moves| ::
         Next(jobs, states[i], moves[i].publisher, moves[i].action, states[i + 1])
  }

  /** Whether the publisher may still change its inode, or has not been allowed to name it yet. */
  predicate Unnamed(phase: Phase) {
    phase == Idle || phase.Writing? || phase == Flushed || phase == Closed
  }

  predicate HoldsName(phase: Phase) {
    phase == Linked || phase == Unlinking || phase == Cleanup(Published) || phase == Finished(Published)
  }

  ghost predicate Consistent(jobs: seq<Job>, s: State) {
    && |s.phases| == |jobs|
    && (forall p | 0 <= p < |jobs| :: PublisherConsistent(jobs, s, p))
    && (forall n | Final(n) in s.entries :: NameConsistent(jobs, s, n))
  }

  ghost predicate PublisherConsistent(jobs: seq<Job>, s: State, p: nat)
    requires p < |jobs| == |s.phases|
  {
    && (s.phases[p].Writing? ==>
          && s.phases[p].written <= |jobs[p].content|
          && p in s.inodes && s.inodes[p] == jobs[p].content[..s.phases[p].written])
    && (s.phases[p] in {Flushed, Closed, Linked} ==> p in s.inodes && s.inodes[p] == jobs[p].content)
    && (HoldsName(s.phases[p]) ==> Final(jobs[p].name) in s.entries && s.entries[Final(jobs[p].name)] == p)
  }

  ghost predicate NameConsistent(jobs: seq<Job>, s: State, n: nat)
    requires |s.phases| == |jobs| && Final(n) in s.entries
  {
    var p := s.entries[Final(n)];
    p < |jobs| && jobs[p].name == n && !Unnamed(s.phases[p]) && p in s.inodes && s.inodes[p] == jobs[p].content
  }

  lemma StepKeepsOwn(jobs: seq<Job>, s: State, p: nat, action: Action, s': State)
    requires Next(jobs, s, p, action, s') && PublisherConsistent(jobs, s, p)
    ensures PublisherConsistent(jobs, s', p)
  {}

  lemma StepKeepsOther(jobs: seq<Job>, s: State, p: nat, action: Action, s': State, q: nat)
    requires Next(jobs, s, p, action, s') && q < |jobs| && q != p
    requires PublisherConsistent(jobs, s, p) && PublisherConsistent(jobs, s, q)
    ensures PublisherConsistent(jobs, s', q)
  {
    assert s'.phases[q] == s.phases[q];
    assert HoldsName(s.phases[q]) && HoldsName(s.phases[p]) ==> jobs[p].name != jobs[q].name;
  }

  lemma StepKeepsName(jobs: seq<Job>, s: State, p: nat, action: Action, s': State, n: nat)
    requires Next(jobs, s, p, action, s') && PublisherConsistent(jobs, s, p)
    requires Final(n) in s.entries ==> NameConsistent(jobs, s, n)
    requires Final(n) in s'.entries
    ensures NameConsistent(jobs, s', n)
  {}

  lemma StepKeepsConsistent(jobs: seq<Job>, s: State, p: nat, action: Action, s': State)
    requires Consistent(jobs, s) && Next(jobs, s, p, action, s')
    ensures Consistent(jobs, s')
  {
    assert PublisherConsistent(jobs, s, p);
    forall q | 0 <= q < |jobs| ensures PublisherConsistent(jobs, s', q) {
      if q == p { StepKeepsOwn(jobs, s, p, action, s'); } else { StepKeepsOther(jobs, s, p, action, s', q); }
    }
    forall n | Final(n) in s'.entries ensures NameConsistent(jobs, s', n) {
      StepKeepsName(jobs, s, p, action, s', n);
    }
  }

  lemma {:induction false} RunIsConsistent(jobs: seq<Job>, states: seq<State>, moves: seq<Move>, i: nat)
    requires IsRun(jobs, states, moves) && i < |states|
    ensures Consistent(jobs, states[i])
  {
    if i > 0 {
      var m := moves[i - 1];
      RunIsConsistent(jobs, states, moves, i - 1);
      assert Next(jobs, states[i - 1], m.publisher, m.action, states[i - 1 + 1]);
      StepKeepsConsistent(jobs, states[i - 1], m.publisher, m.action, states[i]);
    }
  }

  /** What a reader finds under a final name. */
  function Visible(s: State, name: nat): Option<Bytes> {
    if Final(name) in s.entries && s.entries[Final(name)] in s.inodes
    then Some(s.inodes[s.entries[Final(name)]]) else None
  }

  /**
   * At every moment of every interleaving, crashes and short writes included, a final name is absent
   * or shows exactly the whole content some publisher was asked to put there.
   */
  lemma NeverPartial(jobs: seq<Job>, states: seq<State>, moves: seq<Move>, i: nat, name: nat)
    requires IsRun(jobs, states, moves) && i < |states|
    ensures var seen := Visible(states[i], name);
            && (Final(name) in states[i].entries <==> seen.Some?)
            && (seen.Some? ==> exists p | 0 <= p < |jobs| :: jobs[p] == Job(name, seen.value))
  {
    RunIsConsistent(jobs, states, moves, i);
    if Final(name) in states[i].entries {
      assert NameConsistent(jobs, states[i], name);
      assert jobs[states[i].entries[Final(name)]] == Job(name, Visible(states[i], name).value);
    }
  }

  /** A name once given is never replaced: only its own publisher can take it back, after a failed sync. */
  lemma NeverReplaced(jobs: seq<Job>, states: seq<State>, moves: seq<Move>, i: nat, name: nat)
    requires IsRun(jobs, states, moves) && i < |moves|
    requires Visible(states[i], name).Some?
    ensures || Visible(states[i + 1], name) == Visible(states[i], name)
            || (Visible(states[i + 1], name) == None && moves[i].action == Unlink(true) &&
                states[i].entries[Final(name)] == moves[i].publisher &&
                states[i].phases[moves[i].publisher] == Unlinking)
  {
    RunIsConsistent(jobs, states, moves, i);
    RunIsConsistent(jobs, states, moves, i + 1);
    var m := moves[i];
    assert Next(jobs, states[i], m.publisher, m.action, states[i + 1]);
    assert NameConsistent(jobs, states[i], name);
    assert PublisherConsistent(jobs, states[i], m.publisher);
    if Final(name) in states[i + 1].entries { assert NameConsistent(jobs, states[i + 1], name); }
  }

  /** While no sync fails after a link, whatever was visible stays visible, unchanged, to the end. */
  lemma {:induction false} StaysVisible(jobs: seq<Job>, states: seq<State>, moves: seq<Move>, i: nat, j: nat,
                                        name: nat)
    requires IsRun(jobs, states, moves) && i <= j < |states|
    requires forall k | 0 <= k < |moves| :: moves[k].action != Unlink(true)
    requires Visible(states[i], name).Some?
    ensures Visible(states[j], name) == Visible(states[i], name)
    decreases j
  {
    if i < j {
      StaysVisible(jobs, states, moves, i, j - 1, name);
      NeverReplaced(jobs, states, moves, j - 1, name);
    }
  }

  /** Of all publishers of one name at most one holds it, and its content is the one visible. */
  lemma OneWinner(jobs: seq<Job>, states: seq<State>, moves: seq<Move>, i: nat, p: nat, q: nat)
    requires IsRun(jobs, states, moves) && i < |states| && p < |jobs| && q < |jobs|
    requires jobs[p].name == jobs[q].name && |states[i].phases| == |jobs|
    requires HoldsName(states[i].phases[p])
    ensures Visible(states[i], jobs[p].name) == Some(jobs[p].content)
    ensures HoldsName(states[i].phases[q]) ==> p == q
  {
    RunIsConsistent(jobs, states, moves, i);
    assert PublisherConsistent(jobs, states[i], p) && PublisherConsistent(jobs, states[i], q);
    assert NameConsistent(jobs, states[i], jobs[p].name);
  }

  /** A publisher that reaches `link` learns that the name exists exactly when it does, and else takes it. */
  lemma LinkDecides(jobs: seq<Job>, states: seq<State>, moves: seq<Move>, i: nat)
    requires IsRun(jobs, states, moves) && i < |moves| && moves[i].action == Link
    ensures var p := moves[i].publisher;
            && p < |jobs| == |states[i + 1].phases|
            && states[i + 1].phases[p] ==
                 (if Visible(states[i], jobs[p].name).Some? then Cleanup(Exists) else Linked)
            && (Visible(states[i], jobs[p].name) == None ==>
                  Visible(states[i + 1], jobs[p].name) == Some(jobs[p].content))
            && forall n | n != jobs[p].name :: Visible(states[i + 1], n) == Visible(states[i], n)
  {
    var p := moves[i].publisher;
    assert Next(jobs, states[i], p, moves[i].action, states[i + 1]);
    RunIsConsistent(jobs, states, moves, i);
    RunIsConsistent(jobs, states, moves, i + 1);
    assert PublisherConsistent(jobs, states[i + 1], p);
    if Final(jobs[p].name) in states[i].entries { assert NameConsistent(jobs, states[i], jobs[p].name); }
  }

  // ---------------------------------------------------------------- the call itself

  /** A short write moves the first bytes of the view into the file. */
  lemma PartWritten(file: Bytes, view: Bytes, n: nat)
    requires n <= |view|
    ensures file + view[..n] + view[n..] == file + view
  {
    assert view == view[..n] + view[n..];
  }

  /** Whether writes that take this many bytes each, the first being number `k`, take all of `left`. */
  predicate AllTaken(left: nat, accepts: nat -> nat, k: nat)
    decreases left
  {
    left == 0 ||
    var n := if accepts(k) < left then accepts(k) else left;
    n > 0 && AllTaken(left - n, accepts, k + 1)
  }

  /** How each call of one publication goes; `accepts(k)` is how many bytes write number `k` takes at most. */
  datatype Calls = Calls(open: bool, create: bool, accepts: nat -> nat, flush: bool, link: bool, sync: bool,
                         unlink: bool, cleanup: bool)
  {
    /** The temporary file is there, whole and flushed. */
    predicate Prepare(size: nat) { open && create && AllTaken(size, accepts, 0) && flush }
  }

  class Directory {
    var entries: map<Entry, nat>
    var inodes: map<nat, Bytes>

    /** What a reader of this directory finds under a final name. */
    function Read(name: nat): Option<Bytes>
      reads this
    {
      if Final(name) in entries && entries[Final(name)] in inodes
      then Some(inodes[entries[Final(name)]]) else None
    }

    ghost predicate Fresh(id: nat)
      reads this
    {
      Temporary(id) !in entries && id !in inodes && forall e | e in entries :: entries[e] != id
    }

    /**
     * `_publish_new`, exactly, for every way its calls may go. The final name ends up with the whole content
     * when the call succeeds, and is untouched when it does not, except that a failed directory sync whose
     * unlink also fails leaves the whole content behind.
     */
    method PublishNew(id: nat, name: nat, content: Bytes, calls: Calls) returns (outcome: Outcome)
      requires Fresh(id)
      modifies this
      ensures forall n | n != name :: Read(n) == old(Read(n))
      ensures outcome ==
                if !calls.Prepare(|content|) || !calls.link then Failed
                else if Final(name) in old(entries) then Exists
                else if calls.sync then Published else Failed
      ensures Read(name) ==
                if calls.Prepare(|content|) && calls.link && Final(name) !in old(entries)
                   && (calls.sync || !calls.unlink)
                then Some(content) else old(Read(name))
      ensures Final(name) in old(entries) ==>
                Final(name) in entries && entries[Final(name)] == old(entries)[Final(name)]
      ensures Temporary(id) in entries <==> calls.open && calls.create && !calls.cleanup
    {
      outcome := Failed;
      if !calls.open || !calls.create { return; }
      entries := entries[Temporary(id) := id];
      inodes := inodes[id := []];
      var whole := Fill(id, content, calls.accepts);
      if whole && calls.flush && calls.link {
        if Final(name) in entries {
          outcome := Exists;
        } else {
          entries := entries[Final(name) := id];
          outcome := Published;
          if !calls.sync {
            outcome := Failed;
            if calls.unlink { entries := entries - {Final(name)}; }
          }
        }
      }
      if calls.cleanup { entries := entries - {Temporary(id)}; }
    }

    /** The writes, each of which may be short; one that takes nothing, or raises, ends them. */
    method Fill(id: nat, content: Bytes, accepts: nat -> nat) returns (whole: bool)
      requires id in inodes && inodes[id] == []
      modifies `inodes
      ensures inodes.Keys == old(inodes).Keys && inodes == old(inodes)[id := inodes[id]]
      ensures whole == AllTaken(|content|, accepts, 0)
      ensures whole ==> inodes[id] == content
    {
      var view, k := content, 0;
      while view != []
        invariant id in inodes && inodes == old(inodes)[id := inodes[id]]
        invariant inodes[id] + view == content
        invariant AllTaken(|content|, accepts, 0) == AllTaken(|view|, accepts, k)
        decreases |view|
      {
        var written := if accepts(k) < |view| then accepts(k) else |view|;
        if written == 0 { return false; }
        PartWritten(inodes[id], view, written);
        inodes := inodes[id := inodes[id] + view[..written]];
        view, k := view[written..], k + 1;
      }
      assert inodes[id] + [] == inodes[id];
      whole := true;
    }
  }

  // ---------------------------------------------------------------- reading a private file

  const CHUNK := 65536

  /** Whether reads that give this many bytes each, the first being number `k`, give all of `left`. */
  predicate AllGiven(left: nat, gives: nat -> nat, k: nat)
    decreases left
  {
    left == 0 ||
    var n := Given(left, gives(k));
    n > 0 && AllGiven(left - n, gives, k + 1)
  }

  /** One read of at most 65536 bytes, and no more than are left. */
  function Given(left: nat, offered: nat): (n: nat)
    ensures n <= left && n <= 65536
  {
    var n := if left < CHUNK then left else CHUNK;
    if offered < n then offered else n
  }

  /**
   * `_read_private_file`. `before` is the size seen when the file was opened and `steady` whether the file
   * still has its identity, size and time afterwards; read number `k` gives at most `gives(k)` bytes. It
   * returns the exact content of a well-formed steady file of that size, and otherwise nothing.
   */
  method ReadPrivateFile(content: Bytes, before: nat, limit: nat, wellFormed: bool, steady: bool, gives: nat -> nat)
    returns (res: Option<Bytes>)
    ensures res.Some? <==>
              wellFormed && before <= limit && |content| == before && steady && AllGiven(before, gives, 0)
    ensures res.Some? ==> res.value == content
  {
    if !wellFormed || before > limit { return None; }
    var chunks: Bytes := [];
    var remaining, k := before, 0;
    while remaining > 0
      invariant |chunks| + remaining == before && remaining >= 0 && k >= 0
      invariant |chunks| <= |content| && chunks == content[..|chunks|]
      invariant |content| == before ==> AllGiven(before, gives, 0) == AllGiven(remaining, gives, k)
    {
      var available := |content| - |chunks|;
      var count := Given(remaining, if available < gives(k) then available else gives(k));
      if count == 0 { return None; }
      chunks := chunks + content[|chunks|..|chunks| + count];
      remaining, k := remaining - count, k + 1;
    }
    if |chunks| < |content| { return None; }
    if !steady { return None; }
    assert chunks == content[..|content|] == content;
    return Some(chunks);
  }
}
