/**
 * What a loss of power leaves of the publications of Publication.dfy. A directory entry is durable from the
 * next directory sync on; until then it may come back as it was at any moment since the last sync, each
 * entry on its own. An inode's bytes are durable once flushed; until then they may come back as anything.
 */
module PowerLoss {
  import opened Sequences
  import opened Publication

  /** Just after the last directory sync that succeeded, or the beginning. */
  function LastSync(moves: seq<Move>, i: nat): (k: nat)
    requires i <= |moves|
    ensures k <= i
  {
    if i == 0 then 0 else if moves[i - 1].action == SyncDirectory then i else LastSync(moves, i - 1)
  }

  ghost predicate FlushedBy(moves: seq<Move>, i: nat, p: nat)
    requires i <= |moves|
  {
    exists m | 0 <= m < i :: moves[m] == Move(p, Flush)
  }

  function Entered(s: State, name: nat): Option<nat> {
    if Final(name) in s.entries then Some(s.entries[Final(name)]) else None
  }

  /** After a loss of power at moment `i` the name may have this entry. */
  ghost predicate MayName(states: seq<State>, moves: seq<Move>, i: nat, name: nat, entry: Option<nat>)
    requires i <= |moves| < |states|
  {
    exists k | LastSync(moves, i) <= k <= i :: Entered(states[k], name) == entry
  }

  /** And the inode of publisher `p` these bytes. */
  ghost predicate MayHold(states: seq<State>, moves: seq<Move>, i: nat, p: nat, bytes: Bytes)
    requires i <= |moves| < |states|
  {
    FlushedBy(moves, i, p) ==> p in states[i].inodes && bytes == states[i].inodes[p]
  }

  /** A reader may find this under the name after a loss of power at moment `i`. */
  ghost predicate MayRead(states: seq<State>, moves: seq<Move>, i: nat, name: nat, seen: Option<Bytes>)
    requires i <= |moves| < |states|
  {
    || (MayName(states, moves, i, name, None) && seen == None)
    || (seen.Some? && exists p: nat ::
          MayName(states, moves, i, name, Some(p)) && MayHold(states, moves, i, p, seen.value))
  }

  // ---------------------------------------------------------------- whole or absent

  /** What has been given a name, or is about to be, was flushed and holds its whole content. */
  ghost predicate WholeAt(jobs: seq<Job>, s: State, moves: seq<Move>, i: nat, p: nat)
    requires p < |jobs| == |s.phases| && i <= |moves|
  {
    && (s.phases[p] in {Flushed, Closed} ==> FlushedBy(moves, i, p))
    && (Entered(s, jobs[p].name) == Some(p) ==> FlushedBy(moves, i, p))
    && (FlushedBy(moves, i, p) ==>
          s.phases[p] != Idle && !s.phases[p].Writing? && p in s.inodes && s.inodes[p] == jobs[p].content)
  }

  lemma FlushedOneMore(moves: seq<Move>, i: nat, p: nat)
    requires i < |moves|
    ensures FlushedBy(moves, i + 1, p) <==> FlushedBy(moves, i, p) || moves[i] == Move(p, Flush)
  {
    if moves[i] == Move(p, Flush) { assert FlushedBy(moves, i + 1, p); }
  }

  lemma StepOfOther(jobs: seq<Job>, s: State, m: Move, s': State, p: nat)
    requires Next(jobs, s, m.publisher, m.action, s') && p < |jobs| && p != m.publisher
    ensures s'.phases[p] == s.phases[p]
    ensures p in s.inodes ==> p in s'.inodes && s'.inodes[p] == s.inodes[p]
    ensures Entered(s', jobs[p].name) == Some(p) ==> Entered(s, jobs[p].name) == Some(p)
  {}

  lemma StepOfOwn(jobs: seq<Job>, s: State, m: Move, s': State, moves: seq<Move>, i: nat)
    requires Next(jobs, s, m.publisher, m.action, s') && PublisherConsistent(jobs, s, m.publisher)
    requires i < |moves| && moves[i] == m && WholeAt(jobs, s, moves, i, m.publisher)
    ensures WholeAt(jobs, s', moves, i + 1, m.publisher)
  {
    FlushedOneMore(moves, i, m.publisher);
  }

  lemma {:induction false} RunIsWhole(jobs: seq<Job>, states: seq<State>, moves: seq<Move>, i: nat, p: nat)
    requires IsRun(jobs, states, moves) && i < |states| && p < |jobs|
    ensures |states[i].phases| == |jobs| && WholeAt(jobs, states[i], moves, i, p)
  {
    if i > 0 {
      var k := i - 1;
      var m := moves[k];
      RunIsWhole(jobs, states, moves, k, p);
      RunIsConsistent(jobs, states, moves, k);
      assert Next(jobs, states[k], m.publisher, m.action, states[k + 1]);
      assert PublisherConsistent(jobs, states[k], m.publisher);
      if m.publisher == p {
        StepOfOwn(jobs, states[k], m, states[i], moves, k);
      } else {
        FlushedOneMore(moves, k, p);
        StepOfOther(jobs, states[k], m, states[i], p);
      }
    }
  }

  lemma FlushedStays(moves: seq<Move>, k: nat, i: nat, p: nat)
    requires k <= i <= |moves| && FlushedBy(moves, k, p)
    ensures FlushedBy(moves, i, p)
  {
    var m :| 0 <= m < k && moves[m] == Move(p, Flush);
  }

  /** Whenever the power fails, a final name afterwards is absent or shows the whole content of one publisher of it. */
  lemma WholeOrAbsent(jobs: seq<Job>, states: seq<State>, moves: seq<Move>, i: nat, name: nat, seen: Option<Bytes>)
    requires IsRun(jobs, states, moves) && i < |states| && MayRead(states, moves, i, name, seen)
    ensures seen.Some? ==> exists p | 0 <= p < |jobs| :: jobs[p] == Job(name, seen.value)
  {
    if seen.Some? {
      var p: nat :| MayName(states, moves, i, name, Some(p)) && MayHold(states, moves, i, p, seen.value);
      NamedIsWhole(jobs, states, moves, i, name, p);
      assert jobs[p] == Job(name, seen.value);
    }
  }

  lemma NamedIsWhole(jobs: seq<Job>, states: seq<State>, moves: seq<Move>, i: nat, name: nat, p: nat)
    requires IsRun(jobs, states, moves) && i < |states| && MayName(states, moves, i, name, Some(p))
    ensures p < |jobs| && jobs[p].name == name && FlushedBy(moves, i, p)
    ensures p in states[i].inodes && states[i].inodes[p] == jobs[p].content
  {
    var k :| LastSync(moves, i) <= k <= i && Entered(states[k], name) == Some(p);
    RunIsConsistent(jobs, states, moves, k);
    assert NameConsistent(jobs, states[k], name);
    RunIsWhole(jobs, states, moves, k, p);
    FlushedStays(moves, k, i, p);
    RunIsWhole(jobs, states, moves, i, p);
  }

  // ---------------------------------------------------------------- what was published survives

  predicate Settled(phase: Phase) { phase == Cleanup(Published) || phase == Finished(Published) || phase == Crashed }

  lemma {:induction false} StaysNamed(jobs: seq<Job>, states: seq<State>, moves: seq<Move>, m: nat, k: nat, p: nat)
    requires IsRun(jobs, states, moves) && m < k < |states| && moves[m] == Move(p, SyncDirectory)
    ensures p < |jobs| == |states[k].phases| && Settled(states[k].phases[p])
    ensures Entered(states[k], jobs[p].name) == Some(p)
    decreases k
  {
    var l := k - 1;
    RunIsConsistent(jobs, states, moves, l);
    assert Next(jobs, states[l], moves[l].publisher, moves[l].action, states[l + 1]);
    assert PublisherConsistent(jobs, states[l], moves[l].publisher);
    if l > m {
      StaysNamed(jobs, states, moves, m, l, p);
      assert NameConsistent(jobs, states[l], jobs[p].name);
      NeverReplaced(jobs, states, moves, l, jobs[p].name);
      if moves[l].publisher == p { SettledStays(jobs, states[l], moves[l], states[k]); }
      else { NameStays(jobs, states[l], moves[l], states[k], p); }
    }
  }

  lemma SettledStays(jobs: seq<Job>, s: State, m: Move, s': State)
    requires Next(jobs, s, m.publisher, m.action, s') && Settled(s.phases[m.publisher])
    ensures Settled(s'.phases[m.publisher]) && Entered(s', jobs[m.publisher].name) == Entered(s, jobs[m.publisher].name)
  {}

  lemma NameStays(jobs: seq<Job>, s: State, m: Move, s': State, p: nat)
    requires Next(jobs, s, m.publisher, m.action, s') && PublisherConsistent(jobs, s, m.publisher)
    requires p < |jobs| && p != m.publisher && Entered(s, jobs[p].name) == Some(p)
    ensures s'.phases[p] == s.phases[p] && Entered(s', jobs[p].name) == Some(p)
  {}

  lemma {:induction false} SyncCovers(moves: seq<Move>, m: nat, i: nat)
    requires m < i <= |moves| && moves[m].action == SyncDirectory
    ensures m < LastSync(moves, i)
  {
    if i - 1 > m && moves[i - 1].action != SyncDirectory { SyncCovers(moves, m, i - 1); }
  }

  /** Once a publisher's directory sync has succeeded, its name shows its whole content after any loss of power. */
  lemma PublishedSurvives(jobs: seq<Job>, states: seq<State>, moves: seq<Move>, m: nat, i: nat, p: nat,
                          seen: Option<Bytes>)
    requires IsRun(jobs, states, moves) && m < i < |states| && moves[m] == Move(p, SyncDirectory)
    requires p < |jobs| && MayRead(states, moves, i, jobs[p].name, seen)
    ensures seen == Some(jobs[p].content)
  {
    SyncCovers(moves, m, i);
    forall entry | MayName(states, moves, i, jobs[p].name, entry) ensures entry == Some(p) {
      var k :| LastSync(moves, i) <= k <= i && Entered(states[k], jobs[p].name) == entry;
      StaysNamed(jobs, states, moves, m, k, p);
    }
    var q: nat :| MayName(states, moves, i, jobs[p].name, Some(q)) && MayHold(states, moves, i, q, seen.value);
    NamedIsWhole(jobs, states, moves, i, jobs[p].name, q);
  }

  // ---------------------------------------------------------------- what finding the name does not promise

  lemma ExtendRun(jobs: seq<Job>, states: seq<State>, moves: seq<Move>, p: nat, action: Action, s: State)
    requires IsRun(jobs, states, moves) && Next(jobs, states[|states| - 1], p, action, s)
    ensures IsRun(jobs, states + [s], moves + [Move(p, action)])
  {
    var longer, more := states + [s], moves + [Move(p, action)];
    forall i | 0 <= i < |more| ensures Next(jobs, longer[i], more[i].publisher, more[i].action, longer[i + 1]) {
      if i < |moves| { assert Next(jobs, states[i], moves[i].publisher, moves[i].action, states[i + 1]); }
    }
  }

  /** Publisher `p` alone, up to its link, with nothing to write. */
  lemma UpToLink(jobs: seq<Job>, states: seq<State>, moves: seq<Move>, p: nat)
    returns (states': seq<State>, moves': seq<Move>)
    requires IsRun(jobs, states, moves) && p < |jobs| && jobs[p].content == []
    requires |states[|states| - 1].phases| == |jobs| && states[|states| - 1].phases[p] == Idle
    ensures IsRun(jobs, states', moves')
    ensures moves' == moves + [Move(p, Open), Move(p, Flush), Move(p, Close), Move(p, Link)]
    ensures var s, s' := states[|states| - 1], states'[|states'| - 1];
            && |s'.phases| == |jobs| && (forall q | 0 <= q < |jobs| && q != p :: s'.phases[q] == s.phases[q])
            && s'.phases[p] == (if Final(jobs[p].name) in s.entries then Cleanup(Exists) else Linked)
            && Final(jobs[p].name) in s'.entries
    ensures |states'| == |states| + 4 && states <= states'
  {
    var s := states[|states| - 1];
    var created := State(s.entries[Temporary(p) := p], s.inodes[p := []], s.phases[p := Writing(0)]);
    var flushed := created.(phases := created.phases[p := Flushed]);
    var closed := flushed.(phases := flushed.phases[p := Closed]);
    var linked :=
      if Final(jobs[p].name) in closed.entries then closed.(phases := closed.phases[p := Cleanup(Exists)])
      else closed.(entries := closed.entries[Final(jobs[p].name) := p], phases := closed.phases[p := Linked]);
    states', moves' := states, moves;
    ExtendRun(jobs, states', moves', p, Open, created);
    states', moves' := states' + [created], moves' + [Move(p, Open)];
    ExtendRun(jobs, states', moves', p, Flush, flushed);
    states', moves' := states' + [flushed], moves' + [Move(p, Flush)];
    ExtendRun(jobs, states', moves', p, Close, closed);
    states', moves' := states' + [closed], moves' + [Move(p, Close)];
    ExtendRun(jobs, states', moves', p, Link, linked);
    states', moves' := states' + [linked], moves' + [Move(p, Link)];
  }

  /**
   * A publisher that finds its name taken, by one that has linked but not yet synced, is told that it exists;
   * a loss of power can still take it away, so that neither publisher's content is there.
   */
  lemma ExistsMayBeLost() returns (jobs: seq<Job>, states: seq<State>, moves: seq<Move>)
    ensures IsRun(jobs, states, moves) && |jobs| == 2 && jobs[0] == jobs[1]
    ensures var i := |moves|;
            && |states[i].phases| == 2 && states[i].phases[1] == Cleanup(Exists)
            && Visible(states[i], jobs[1].name) == Some(jobs[1].content)
            && MayRead(states, moves, i, jobs[1].name, None)
  {
    jobs := [Job(0, []), Job(0, [])];
    states, moves := [Initial(jobs)], [];
    states, moves := UpToLink(jobs, states, moves, 0);
    states, moves := UpToLink(jobs, states, moves, 1);
    NeverPartial(jobs, states, moves, |moves|, 0);
    assert LastSync(moves, 8) == 0 by { NoSync(moves, 8); }
    assert Entered(states[0], 0) == None;
  }

  lemma {:induction false} NoSync(moves: seq<Move>, i: nat)
    requires i <= |moves| && forall k | 0 <= k < i :: moves[k].action != SyncDirectory
    ensures LastSync(moves, i) == 0
  {
    if i > 0 { NoSync(moves, i - 1); }
  }
}
