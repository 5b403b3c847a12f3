/**
 * Any number of writers and readers interleaving on one vertical of the acceptance store. A scan of
 * the directory is one step, a publication is one step (Publication.dfy shows why), and a writer may
 * stop anywhere, leave temporary files behind, or unlink its own record when the directory sync
 * that follows its link fails.
 */
module AcceptanceRuns {
  import opened Sequences
  import opened JsonTrees
  import opened ManagedState
  import opened AcceptanceStore

  /** `pending`: decided but unpublished records. `linked`: published, directory not yet synced. */
  datatype World = World(dir: Directory, pending: map<nat, Record>, linked: map<nat, Record>)

  datatype Event =
    | Resolved(chain: seq<Record>)
    | ResolutionFailed
    | Decided(writer: nat, evidence: Evidence)
    | Published(writer: nat)
    | Synced(writer: nat)
    | Unlinked(writer: nat)
    | Stopped(writer: nat)
    | TemporaryChanged(id: nat, text: Option<Text>)

  function After(w: World, writer: nat, decision: Decision): World {
    if decision.Append? then w.(pending := w.pending[writer := decision.record]) else w
  }

  ghost predicate Next(v: Vertical, w: World, event: Event, w': World) {
    match event
    case Resolved(chain) => ChainOf(v, w.dir, chain) && w' == w
    case ResolutionFailed => !Resolves(v, w.dir) && w' == w
    case Decided(writer, e) =>
      && ValidEvidence(e) && e.body.vertical == v
      && exists chain ::
           && ChainOf(v, w.dir, chain)
           && w' == After(w, writer, Decide(chain, e))
    case Published(writer) =>
      && writer in w.pending
      && var r := w.pending[writer];
         var w1 := w.(pending := w.pending - {writer});
         w' == if RecordName(r.digest) in w.dir then w1
               else w1.(dir := w.dir[RecordName(r.digest) := Canonical(r)],
                        linked := w.linked[writer := r])
    case Synced(writer) => w' == w.(linked := w.linked - {writer})
    case Unlinked(writer) =>
      && writer in w.linked
      && w' == w.(dir := w.dir - {RecordName(w.linked[writer].digest)}, linked := w.linked - {writer})
    case Stopped(writer) =>
      w' == w.(pending := w.pending - {writer}, linked := w.linked - {writer})
    case TemporaryChanged(id, text) =>
      w' == w.(dir := if text.Some? then w.dir[TemporaryName(id) := text.value]
                      else w.dir - {TemporaryName(id)})
  }

  datatype Run = Run(worlds: seq<World>, events: seq<Event>)
  {
    ghost predicate Valid(v: Vertical) {
      && |worlds| == |events| + 1
      && worlds[0] == World(map[], map[], map[])
      && forall i | 0 <= i < |events| :: Next(v, worlds[i], events[i], worlds[i + 1])
    }

    ghost function Last(): World
      requires |worlds| > 0
    {
      worlds[|worlds| - 1]
    }

    /** No directory sync failed after a link, so nothing published was unlinked. */
    predicate NoUnlink() {
      forall i | 0 <= i < |events| :: !events[i].Unlinked?
    }
  }

  ghost predicate In(dir: Directory, r: Record) {
    RecordName(r.digest) in dir && dir[RecordName(r.digest)] == Canonical(r)
  }

  /** The record's predecessor, when it needs one, is in the directory. */
  ghost predicate Anchored(v: Vertical, dir: Directory, r: Record) {
    && ValidRecord(r) && r.body.vertical == v
    && (r.body.generation > 1 ==>
          exists p :: In(dir, p) && Follows(p, r) && p.body.generation + 1 == r.body.generation)
  }

  /** A file that is not temporary holds an anchored record under its own name. */
  ghost predicate FileSound(v: Vertical, dir: Directory, n: Name) {
    n in dir && dir[n].Canonical? && n == RecordName(dir[n].record.digest) && Anchored(v, dir, dir[n].record)
  }

  ghost predicate DirectorySound(v: Vertical, dir: Directory) {
    forall n {:trigger FileSound(v, dir, n)} | n in dir && !n.TemporaryName? :: FileSound(v, dir, n)
  }

  ghost predicate Sound(v: Vertical, w: World) {
    && DirectorySound(v, w.dir)
    && (forall k | k in w.pending :: Anchored(v, w.dir, w.pending[k]))
  }

  ghost predicate Grows(dir: Directory, dir': Directory) {
    forall n | n in dir && !n.TemporaryName? :: n in dir' && dir'[n] == dir[n]
  }

  // ---------------------------------------------------------------- every step

  lemma AnchoredGrows(v: Vertical, dir: Directory, dir': Directory, r: Record)
    requires Anchored(v, dir, r) && Grows(dir, dir')
    ensures Anchored(v, dir', r)
  {
    if r.body.generation > 1 {
      var p :| In(dir, p) && Follows(p, r) && p.body.generation + 1 == r.body.generation;
      assert In(dir', p);
    }
  }

  lemma DecisionIsAnchored(v: Vertical, dir: Directory, chain: seq<Record>, e: Evidence)
    requires ChainOf(v, dir, chain) && ValidEvidence(e) && e.body.vertical == v
    requires Decide(chain, e).Append?
    ensures Anchored(v, dir, Decide(chain, e).record)
  {
    var r := Decide(chain, e).record;
    DecideExtends(v, chain, e);
    var longer := chain + [r];
    assert longer[|chain|] == r && LinkAt(v, longer, |chain|);
    if chain != [] {
      var head := chain[|chain| - 1];
      assert LinkAt(v, longer, |chain| - 1);
      assert longer[|chain| - 1] == head && In(dir, head);
    }
  }

  lemma StepGrows(v: Vertical, w: World, event: Event, w': World)
    requires Next(v, w, event, w') && !event.Unlinked?
    ensures Grows(w.dir, w'.dir)
  {}

  lemma DecidedIsAnchored(v: Vertical, w: World, writer: nat, e: Evidence, chain: seq<Record>)
    requires Sound(v, w) && ChainOf(v, w.dir, chain) && ValidEvidence(e) && e.body.vertical == v
    ensures var w' := After(w, writer, Decide(chain, e));
            forall k | k in w'.pending :: Anchored(v, w.dir, w'.pending[k])
  {
    if Decide(chain, e).Append? { DecisionIsAnchored(v, w.dir, chain, e); }
  }

  lemma OthersDecideNothing(v: Vertical, w: World, event: Event, w': World)
    requires Next(v, w, event, w') && !event.Decided?
    ensures forall k | k in w'.pending :: k in w.pending && w'.pending[k] == w.pending[k]
  {}

  /** What a step decides was anchored before it. */
  lemma StepDecidesAnchored(v: Vertical, w: World, event: Event, w': World)
    requires Sound(v, w) && Next(v, w, event, w')
    ensures forall k | k in w'.pending :: Anchored(v, w.dir, w'.pending[k])
  {
    if event.Decided? {
      var chain :| ChainOf(v, w.dir, chain) && w' == After(w, event.writer, Decide(chain, event.evidence));
      DecidedIsAnchored(v, w, event.writer, event.evidence, chain);
    } else {
      OthersDecideNothing(v, w, event, w');
    }
  }

  /** What a step publishes was pending before it. */
  lemma StepPublishesPending(v: Vertical, w: World, event: Event, w': World, n: Name)
    requires Next(v, w, event, w') && n in w'.dir && !n.TemporaryName? && n !in w.dir
    ensures event.Published? && event.writer in w.pending
    ensures var r := w.pending[event.writer]; n == RecordName(r.digest) && w'.dir[n] == Canonical(r)
  {}

  lemma StepKeepsSound(v: Vertical, w: World, event: Event, w': World)
    requires Sound(v, w) && Next(v, w, event, w') && !event.Unlinked?
    ensures Sound(v, w') && Grows(w.dir, w'.dir)
  {
    StepGrows(v, w, event, w');
    StepDecidesAnchored(v, w, event, w');
    forall k | k in w'.pending ensures Anchored(v, w'.dir, w'.pending[k]) {
      AnchoredGrows(v, w.dir, w'.dir, w'.pending[k]);
    }
    forall n | n in w'.dir && !n.TemporaryName? ensures FileSound(v, w'.dir, n) {
      if n in w.dir { assert FileSound(v, w.dir, n); } else { StepPublishesPending(v, w, event, w', n); }
      AnchoredGrows(v, w.dir, w'.dir, w'.dir[n].record);
    }
  }

  lemma {:induction false} RunIsSound(v: Vertical, run: Run, j: nat)
    requires run.Valid(v) && run.NoUnlink() && j < |run.worlds|
    ensures Sound(v, run.worlds[j])
  {
    if j > 0 {
      RunIsSound(v, run, j - 1);
      assert Next(v, run.worlds[j - 1], run.events[j - 1], run.worlds[j - 1 + 1]);
      StepKeepsSound(v, run.worlds[j - 1], run.events[j - 1], run.worlds[j]);
    }
  }

  lemma {:induction false} RunGrows(v: Vertical, run: Run, i: nat, j: nat)
    requires run.Valid(v) && run.NoUnlink() && i <= j < |run.worlds|
    ensures Grows(run.worlds[i].dir, run.worlds[j].dir)
    decreases j
  {
    if i < j {
      RunGrows(v, run, i, j - 1);
      assert Next(v, run.worlds[j - 1], run.events[j - 1], run.worlds[j - 1 + 1]);
      StepGrows(v, run.worlds[j - 1], run.events[j - 1], run.worlds[j]);
    }
  }

  // ---------------------------------------------------------------- readers never disagree

  lemma GrowthKeepsPlace(v: Vertical, dir: Directory, dir': Directory, a: seq<Record>, b: seq<Record>, i: nat)
    requires ChainOf(v, dir, a) && ChainOf(v, dir', b) && Grows(dir, dir') && i < |a|
    ensures i < |b| && a[i] == b[i]
  {
    Places(v, a);
    Places(v, b);
    assert RecordName(a[i].digest) in Files(dir);
    FileInChain(dir', b, a[i]);
  }

  lemma GrowthExtendsChain(v: Vertical, dir: Directory, dir': Directory, a: seq<Record>, b: seq<Record>)
    requires ChainOf(v, dir, a) && ChainOf(v, dir', b) && Grows(dir, dir')
    ensures a <= b
  {
    if a != [] { GrowthKeepsPlace(v, dir, dir', a, b, |a| - 1); }
    forall i | 0 <= i < |a| ensures a[i] == b[i] { GrowthKeepsPlace(v, dir, dir', a, b, i); }
  }

  /** Of any two successful resolutions in a run, the earlier is a prefix of the later. */
  lemma ResolutionsAreOrdered(v: Vertical, run: Run, i: nat, j: nat)
    requires run.Valid(v) && run.NoUnlink() && i <= j < |run.events|
    requires run.events[i].Resolved? && run.events[j].Resolved?
    ensures run.events[i].chain <= run.events[j].chain
  {
    RunGrows(v, run, i, j);
    assert Next(v, run.worlds[i], run.events[i], run.worlds[i + 1]);
    assert Next(v, run.worlds[j], run.events[j], run.worlds[j + 1]);
    GrowthExtendsChain(v, run.worlds[i].dir, run.worlds[j].dir,
                       run.events[i].chain, run.events[j].chain);
  }

  // ---------------------------------------------------------------- when a directory resolves

  /** Two different published records claim the same predecessor (or both claim to have none). */
  ghost predicate Forked(dir: Directory) {
    exists a, b :: In(dir, a) && In(dir, b) && a != b && a.body.previousDigest == b.body.previousDigest
  }

  lemma ChainHasNoFork(v: Vertical, dir: Directory, chain: seq<Record>)
    requires ChainOf(v, dir, chain)
    ensures !Forked(dir)
  {
    forall a, b | In(dir, a) && In(dir, b) && a.body.previousDigest == b.body.previousDigest
      ensures a == b
    {
      FileInChain(dir, chain, a);
      FileInChain(dir, chain, b);
      var i :| 0 <= i < |chain| && chain[i] == a;
      var j :| 0 <= j < |chain| && chain[j] == b;
      SamePredecessorSamePlace(v, chain, i, j);
    }
  }

  lemma SamePredecessorSamePlace(v: Vertical, chain: seq<Record>, i: nat, j: nat)
    requires IsChain(v, chain) && i < |chain| && j < |chain|
    requires chain[i].body.previousDigest == chain[j].body.previousDigest
    ensures i == j
  {
    Places(v, chain);
    assert LinkAt(v, chain, i) && LinkAt(v, chain, j);
  }

  lemma CountNames(v: Vertical, chain: seq<Record>)
    requires IsChain(v, chain)
    ensures |Names(chain)| == |chain|
  {
    Places(v, chain);
    CountDistinctNames(chain);
  }

  lemma {:induction false} CountDistinctNames(chain: seq<Record>)
    requires forall i, j | 0 <= i < j < |chain| :: chain[i].digest != chain[j].digest
    ensures |Names(chain)| == |chain|
  {
    if chain != [] {
      var init, last := chain[..|chain| - 1], chain[|chain| - 1];
      CountDistinctNames(init);
      assert chain == init + [last];
      assert Names(chain) == Names(init) + {RecordName(last.digest)};
    }
  }

  /** Without a fork a published record that follows a non-final chain record is the next one. */
  lemma OnlySuccessor(v: Vertical, dir: Directory, chain: seq<Record>, r: Record)
    requires DirectorySound(v, dir) && !Forked(dir)
    requires IsChain(v, chain) && forall s | s in chain :: In(dir, s)
    requires In(dir, r)
    ensures chain != [] && r.body.generation == 1 ==> r == chain[0]
    ensures forall i | 0 <= i < |chain| && Follows(chain[i], r) :: i == |chain| - 1 || r in chain
  {
    assert FileSound(v, dir, RecordName(r.digest));
    forall i | 0 <= i < |chain| - 1 && Follows(chain[i], r) ensures r in chain {
      assert LinkAt(v, chain, i + 1) && In(dir, chain[i + 1]);
    }
    if chain != [] && r.body.generation == 1 { assert LinkAt(v, chain, 0) && In(dir, chain[0]); }
  }

  lemma CanFollow(v: Vertical, dir: Directory, chain: seq<Record>, p: Record, r: Record)
    requires DirectorySound(v, dir) && !Forked(dir)
    requires IsChain(v, chain) && forall s | s in chain :: In(dir, s)
    requires In(dir, r) && r !in chain && Anchored(v, dir, r)
    requires p in chain && Follows(p, r) && p.body.generation + 1 == r.body.generation
    ensures IsChain(v, chain + [r])
  {
    OnlySuccessor(v, dir, chain, r);
    Places(v, chain);
    var i :| 0 <= i < |chain| && chain[i] == p;
    assert Follows(chain[i], r);
    AppendKeepsChain(v, chain, r);
  }

  /** Some published record outside the chain can be appended to it. */
  lemma {:induction false} FindSuccessor(v: Vertical, dir: Directory, chain: seq<Record>, r: Record)
    returns (next: Record)
    requires DirectorySound(v, dir) && !Forked(dir)
    requires IsChain(v, chain) && forall s | s in chain :: In(dir, s)
    requires In(dir, r) && r !in chain
    ensures In(dir, next) && next !in chain && IsChain(v, chain + [next])
    decreases r.body.generation
  {
    assert FileSound(v, dir, RecordName(r.digest));
    next := r;
    if r.body.generation == 1 {
      OnlySuccessor(v, dir, chain, r);
      AppendKeepsChain(v, chain, r);
    } else {
      var p :| In(dir, p) && Follows(p, r) && p.body.generation + 1 == r.body.generation;
      if p in chain {
        CanFollow(v, dir, chain, p, r);
      } else {
        assert FileSound(v, dir, RecordName(p.digest));
        next := FindSuccessor(v, dir, chain, p);
      }
    }
  }

  lemma NamesPublished(dir: Directory, chain: seq<Record>)
    requires forall s | s in chain :: In(dir, s)
    ensures Names(chain) <= Files(dir)
    ensures Names(chain) == Files(dir) ==> Holds(dir, chain)
  {
    forall n | n in Names(chain) ensures n in Files(dir) {
      var s :| s in chain && n == RecordName(s.digest);
      assert In(dir, s);
    }
  }

  ghost predicate Partial(v: Vertical, dir: Directory, chain: seq<Record>) {
    IsChain(v, chain) && forall s | s in chain :: In(dir, s)
  }

  lemma {:induction false} CompleteChain(v: Vertical, dir: Directory, chain: seq<Record>) returns (full: seq<Record>)
    requires DirectorySound(v, dir) && !Forked(dir) && Partial(v, dir, chain)
    ensures IsChain(v, full) && Holds(dir, full)
    decreases |Files(dir) - Names(chain)|
  {
    NamesPublished(dir, chain);
    if Files(dir) == Names(chain) {
      full := chain;
    } else {
      var longer := OneMore(v, dir, chain);
      full := CompleteChain(v, dir, longer);
    }
  }

  lemma OneMore(v: Vertical, dir: Directory, chain: seq<Record>) returns (longer: seq<Record>)
    requires DirectorySound(v, dir) && !Forked(dir) && Partial(v, dir, chain)
    requires Names(chain) < Files(dir)
    ensures Partial(v, dir, longer)
    ensures |Files(dir) - Names(longer)| < |Files(dir) - Names(chain)|
  {
    var r := Missing(v, dir, chain);
    var next := FindSuccessor(v, dir, chain, r);
    Remaining(v, dir, chain, next);
    longer := chain + [next];
    assert forall s | s in longer :: s in chain || s == next;
  }

  lemma Missing(v: Vertical, dir: Directory, chain: seq<Record>) returns (r: Record)
    requires DirectorySound(v, dir) && Names(chain) < Files(dir)
    ensures In(dir, r) && r !in chain
  {
    var n :| n in Files(dir) && n !in Names(chain);
    assert FileSound(v, dir, n);
    r := dir[n].record;
  }

  lemma Remaining(v: Vertical, dir: Directory, chain: seq<Record>, next: Record)
    requires IsChain(v, chain + [next]) && In(dir, next)
    ensures |Files(dir) - Names(chain + [next])| < |Files(dir) - Names(chain)|
  {
    var longer := chain + [next];
    Places(v, longer);
    assert longer[|chain|] == next;
    forall s | s in chain ensures s.digest != next.digest {
      var i :| 0 <= i < |chain| && chain[i] == s;
      assert longer[i] == s;
    }
    assert forall s | s in chain :: s in longer;
    assert next in longer;
    var before, after := Files(dir) - Names(chain), Files(dir) - Names(longer);
    assert RecordName(next.digest) in before - after;
    assert forall n | n in Names(chain) :: n in Names(longer);
    Subset(after, before - {RecordName(next.digest)});
  }

  lemma ChainIsAnchored(v: Vertical, dir: Directory, chain: seq<Record>, i: nat)
    requires ChainOf(v, dir, chain) && i < |chain|
    ensures Anchored(v, dir, chain[i])
  {
    assert LinkAt(v, chain, i);
    if i > 0 { assert LinkAt(v, chain, i - 1) && In(dir, chain[i - 1]); }
  }

  /**
   * Whatever a directory holds, it resolves exactly when each file is an anchored record under its own name,
   * no two records claim the same predecessor and there are no more record files than the scan bound.
   */
  lemma DirectoryResolvesExactly(v: Vertical, dir: Directory)
    ensures Resolves(v, dir) <==> DirectorySound(v, dir) && !Forked(dir) && |Files(dir)| <= 1024
  {
    if chain: seq<Record> :| ChainOf(v, dir, chain) {
      ChainHasNoFork(v, dir, chain);
      CountNames(v, chain);
      forall n | n in dir && !n.TemporaryName? ensures FileSound(v, dir, n) {
        assert n in Files(dir);
        var i :| 0 <= i < |chain| && n == RecordName(chain[i].digest);
        assert In(dir, chain[i]);
        ChainIsAnchored(v, dir, chain, i);
      }
    }
    if DirectorySound(v, dir) && !Forked(dir) && |Files(dir)| <= MAX_RECORD_SCAN {
      var full := CompleteChain(v, dir, []);
      CountNames(v, full);
      assert ChainOf(v, dir, full);
    }
  }

  /**
   * In every state of every run without an unlink, the directory resolves exactly when no two published
   * records claim the same predecessor and there are no more record files than the scan bound.
   */
  lemma ResolvesExactly(v: Vertical, run: Run, i: nat)
    requires run.Valid(v) && run.NoUnlink() && i < |run.worlds|
    ensures var dir := run.worlds[i].dir;
            Resolves(v, dir) <==> !Forked(dir) && |Files(dir)| <= 1024
  {
    RunIsSound(v, run, i);
    DirectoryResolvesExactly(v, run.worlds[i].dir);
  }

  /**
   * A scan that takes time sees every record that was there when it began, and of those published meanwhile
   * some or none. What it resolves to, if anything, lies between what the directory resolved to before and
   * after; and it resolves exactly when it missed no predecessor of a record it saw.
   */
  lemma TornScan(v: Vertical, run: Run, i: nat, j: nat, seen: Directory)
    requires run.Valid(v) && run.NoUnlink() && i <= j < |run.worlds| && Resolves(v, run.worlds[j].dir)
    requires Grows(run.worlds[i].dir, seen) && Grows(seen, run.worlds[j].dir)
    ensures forall a, c | ChainOf(v, run.worlds[i].dir, a) && ChainOf(v, seen, c) :: a <= c
    ensures forall c, b | ChainOf(v, seen, c) && ChainOf(v, run.worlds[j].dir, b) :: c <= b
    ensures Resolves(v, seen) <==> DirectorySound(v, seen)
  {
    var first, last := run.worlds[i].dir, run.worlds[j].dir;
    forall a, c | ChainOf(v, first, a) && ChainOf(v, seen, c) ensures a <= c {
      GrowthExtendsChain(v, first, seen, a, c);
    }
    forall c, b | ChainOf(v, seen, c) && ChainOf(v, last, b) ensures c <= b {
      GrowthExtendsChain(v, seen, last, c, b);
    }
    DirectoryResolvesExactly(v, seen);
    DirectoryResolvesExactly(v, last);
    SeenLess(seen, last);
  }

  lemma SeenLess(seen: Directory, last: Directory)
    requires Grows(seen, last) && !Forked(last)
    ensures !Forked(seen) && |Files(seen)| <= |Files(last)|
  {
    forall a, b | In(seen, a) && In(seen, b) && a.body.previousDigest == b.body.previousDigest ensures a == b {
      assert In(last, a) && In(last, b);
    }
    Subset(Files(seen), Files(last));
  }

  /** Such a scan can fail though the directory resolves before and after: it saw only the second of two records. */
  lemma TornScanFails(v: Vertical) returns (last: Directory, seen: Directory)
    ensures Resolves(v, map[]) && Resolves(v, last) && Grows(map[], seen) && Grows(seen, last)
    ensures !Resolves(v, seen)
  {
    var chain;
    last, chain := ChainOfLength(v, 2);
    var r := chain[1];
    Places(v, chain);
    assert LinkAt(v, chain, 0) && LinkAt(v, chain, 1);
    seen := map[RecordName(r.digest) := Canonical(r)];
    assert In(last, r);
    var none: Directory := map[];
    assert Files(none) == Names([]) && ChainOf(v, none, []);
    assert !Anchored(v, seen, r);
    assert !FileSound(v, seen, RecordName(r.digest));
    DirectoryResolvesExactly(v, seen);
  }

  /** Once two different successors of one head are published, every later resolution fails. */
  lemma ForkIsPermanent(v: Vertical, run: Run, i: nat, j: nat, a: Record, b: Record)
    requires run.Valid(v) && run.NoUnlink() && i <= j < |run.events|
    requires In(run.worlds[i].dir, a) && In(run.worlds[i].dir, b) && a != b
    requires a.body.previousDigest == b.body.previousDigest
    ensures !run.events[j].Resolved?
  {
    RunGrows(v, run, i, j);
    assert In(run.worlds[j].dir, a) && In(run.worlds[j].dir, b);
    assert Next(v, run.worlds[j], run.events[j], run.worlds[j + 1]);
    if run.events[j].Resolved? { ChainHasNoFork(v, run.worlds[j].dir, run.events[j].chain); }
  }

  // ---------------------------------------------------------------- why the sync must not fail

  function Adoption(payload: Json): Evidence {
    var state := Snapshot(Ospf, Envelope(Ospf, 0), payload);
    Sign(EvidenceBody(InitialAdoption, 0, true, Ospf, Envelope(Ospf, 0), state, state.Digest(), 0,
                      OtherDigest(0), None, None))
  }

  function FirstRecord(payload: Json): Record {
    var body := RecordBody(Ospf, 1, Adoption(payload), DeriveReference(Adoption(payload)), None);
    Record(body, RecordDigest(body))
  }

  /** One writer alone adopts, publishes and is resolved; a failed sync then undoes it. */
  lemma AdoptionSteps(payload: Json, writer: nat)
    ensures var r := FirstRecord(payload);
            var empty := World(map[], map[], map[]);
            var decided := World(map[], map[writer := r], map[]);
            var published := World(map[RecordName(r.digest) := Canonical(r)], map[], map[writer := r]);
            && Next(Ospf, empty, Decided(writer, Adoption(payload)), decided)
            && Next(Ospf, decided, Published(writer), published)
            && Next(Ospf, published, Resolved([r]), published)
            && Next(Ospf, published, Unlinked(writer), empty)
  {
    var r := FirstRecord(payload);
    var empty: World := World(map[], map[], map[]);
    var dir := map[RecordName(r.digest) := Canonical(r)];
    var decided: World := World(map[], map[writer := r], map[]);
    assert Files(map[]) == {} == Names([]);
    assert ChainOf(Ospf, map[], []);
    assert Decide([], Adoption(payload)) == Append(r);
    assert empty.pending[writer := r] == decided.pending;
    assert decided.pending - {writer} == map[];
    assert Next(Ospf, decided, Published(writer), World(dir, map[], map[writer := r])) by {
      assert decided.dir[RecordName(r.digest) := Canonical(r)] == dir;
    }
    assert Files(dir) == {RecordName(r.digest)} == Names([r]);
    assert dir - {RecordName(r.digest)} == map[];
    assert map[writer := r] - {writer} == map[];
  }

  /**
   * A directory sync that fails after the link unlinks a record a reader may already have resolved:
   * with one such failure two resolutions can be incomparable.
   */
  lemma UnlinkBreaksOrder() returns (run: Run)
    ensures run.Valid(Ospf)
    ensures |run.events| == 7 && run.events[2].Resolved? && run.events[3].Unlinked? && run.events[6].Resolved?
    ensures !(run.events[2].chain <= run.events[6].chain) && !(run.events[6].chain <= run.events[2].chain)
  {
    var empty: World := World(map[], map[], map[]);
    run := AdoptionRound(Run([empty], []), 0, Leaf(0));
    run := ExtendRun(Ospf, run, Unlinked(0), empty);
    run := AdoptionRound(run, 1, Leaf(1));
    DifferentFirstRecords(Leaf(0), Leaf(1));
  }

  lemma KeptPlace(v: Vertical, dir: Directory, a: seq<Record>, b: seq<Record>, i: nat)
    requires IsChain(v, a) && ChainOf(v, dir, b) && i < |a| && In(dir, a[i])
    ensures i < |b| && b[i] == a[i]
  {
    Places(v, a);
    Places(v, b);
    FileInChain(dir, b, a[i]);
    var j :| 0 <= j < |b| && b[j] == a[i];
    assert a[i].body.generation == i + 1 && b[j].body.generation == j + 1;
  }

  lemma PlaceIsKept(v: Vertical, dir: Directory, a: seq<Record>, b: seq<Record>, r: Record)
    requires ChainOf(v, dir, b) && a <= b && r in a
    ensures In(dir, r)
  {
    var i :| 0 <= i < |a| && a[i] == r;
    assert b[i] == r && r in b;
  }

  /**
   * Of two chains the first is a prefix of the second exactly when none of its records is missing from
   * the second's directory.
   */
  lemma OrderedExactly(v: Vertical, dir: Directory, dir': Directory, a: seq<Record>, b: seq<Record>)
    requires ChainOf(v, dir, a) && ChainOf(v, dir', b)
    ensures a <= b <==> forall r | r in a :: In(dir', r)
  {
    if a <= b {
      forall r | r in a ensures In(dir', r) { PlaceIsKept(v, dir', a, b, r); }
    }
    if forall r | r in a :: In(dir', r) {
      forall i | 0 <= i < |a| ensures i < |b| && b[i] == a[i] { KeptPlace(v, dir', a, b, i); }
      if a != [] { KeptPlace(v, dir', a, b, |a| - 1); }
    }
  }

  /** Two resolutions of any run are in order exactly when no record of the earlier had been taken back. */
  lemma ResolutionsOrderedExactly(v: Vertical, run: Run, i: nat, j: nat)
    requires run.Valid(v) && i <= j < |run.events|
    requires run.events[i].Resolved? && run.events[j].Resolved?
    ensures run.events[i].chain <= run.events[j].chain <==>
              forall r | r in run.events[i].chain :: In(run.worlds[j].dir, r)
  {
    assert Next(v, run.worlds[i], run.events[i], run.worlds[i + 1]);
    assert Next(v, run.worlds[j], run.events[j], run.worlds[j + 1]);
    OrderedExactly(v, run.worlds[i].dir, run.worlds[j].dir, run.events[i].chain, run.events[j].chain);
  }

  /** The event takes the published record `r` back, after a failed sync. */
  predicate TakesBack(w: World, event: Event, r: Record) {
    event.Unlinked? && event.writer in w.linked && w.linked[event.writer].digest == r.digest
  }

  /** The event publishes `r` where its name is free. */
  predicate Publishes(w: World, event: Event, r: Record) {
    && event.Published? && event.writer in w.pending && w.pending[event.writer] == r
    && RecordName(r.digest) !in w.dir
  }

  lemma StepOnRecord(v: Vertical, w: World, event: Event, w': World, r: Record)
    requires Next(v, w, event, w')
    ensures In(w'.dir, r) <==> !TakesBack(w, event, r) && (In(w.dir, r) || Publishes(w, event, r))
  {}

  /** Between these moments the record was not taken back, or was published again since it last was. */
  ghost predicate Restored(run: Run, i: nat, j: nat, r: Record)
    requires i <= j <= |run.events| < |run.worlds|
  {
    i == j ||
    (!TakesBack(run.worlds[j - 1], run.events[j - 1], r) &&
     (Restored(run, i, j - 1, r) || Publishes(run.worlds[j - 1], run.events[j - 1], r)))
  }

  lemma {:induction false} KeptExactly(v: Vertical, run: Run, i: nat, j: nat, r: Record)
    requires run.Valid(v) && i <= j <= |run.events| && In(run.worlds[i].dir, r)
    ensures In(run.worlds[j].dir, r) <==> Restored(run, i, j, r)
    decreases j
  {
    if i < j {
      var k := j - 1;
      KeptExactly(v, run, i, k, r);
      assert Next(v, run.worlds[k], run.events[k], run.worlds[k + 1]);
      StepOnRecord(v, run.worlds[k], run.events[k], run.worlds[k + 1], r);
    }
  }

  /**
   * In terms of what happened: two resolutions of any run are in order exactly when each record of the earlier
   * one was not taken back in between, or was published again since it last was.
   */
  lemma ResolutionsOrderedByEvents(v: Vertical, run: Run, i: nat, j: nat)
    requires run.Valid(v) && i <= j < |run.events|
    requires run.events[i].Resolved? && run.events[j].Resolved?
    ensures run.events[i].chain <= run.events[j].chain <==>
              forall r | r in run.events[i].chain :: Restored(run, i, j, r)
  {
    ResolutionsOrderedExactly(v, run, i, j);
    assert Next(v, run.worlds[i], run.events[i], run.worlds[i + 1]);
    forall r | r in run.events[i].chain ensures In(run.worlds[j].dir, r) <==> Restored(run, i, j, r) {
      assert In(run.worlds[i].dir, r);
      KeptExactly(v, run, i, j, r);
    }
  }

  lemma DifferentFirstRecords(p: Json, q: Json)
    requires p != q
    ensures FirstRecord(p) != FirstRecord(q)
  {
    assert FirstRecord(p).body.evidence.body.state.payload == p;
    assert FirstRecord(q).body.evidence.body.state.payload == q;
  }

  lemma AdoptionRound(run: Run, writer: nat, payload: Json) returns (longer: Run)
    requires run.Valid(Ospf) && run.Last() == World(map[], map[], map[])
    ensures longer.Valid(Ospf)
    ensures var r := FirstRecord(payload);
            && longer.events ==
                 run.events + [Decided(writer, Adoption(payload)), Published(writer), Resolved([r])]
            && Next(Ospf, longer.Last(), Unlinked(writer), World(map[], map[], map[]))
  {
    AdoptionSteps(payload, writer);
    var r := FirstRecord(payload);
    var decided := World(map[], map[writer := r], map[]);
    var published := World(map[RecordName(r.digest) := Canonical(r)], map[], map[writer := r]);
    longer := ExtendRun(Ospf, run, Decided(writer, Adoption(payload)), decided);
    longer := ExtendRun(Ospf, longer, Published(writer), published);
    longer := ExtendRun(Ospf, longer, Resolved([r]), published);
  }

  lemma ExtendRun(v: Vertical, run: Run, event: Event, w: World) returns (longer: Run)
    requires run.Valid(v) && Next(v, run.Last(), event, w)
    ensures longer.Valid(v) && longer.Last() == w && longer.events == run.events + [event]
  {
    longer := Run(run.worlds + [w], run.events + [event]);
    forall i | 0 <= i < |longer.events|
      ensures Next(v, longer.worlds[i], longer.events[i], longer.worlds[i + 1])
    {
      if i < |run.events| { assert Next(v, run.worlds[i], run.events[i], run.worlds[i + 1]); }
    }
  }
}
