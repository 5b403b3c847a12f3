/**
 * The append-only acceptance store: one directory of content-addressed record files per vertical,
 * with the current chain recomputed from the whole directory on every call.
 */
module AcceptanceStore {
  import opened Sequences
  import opened JsonTrees
  import opened ManagedState

  const MAX_RECORD_SCAN := 1024

  datatype Name =
    | RecordName(digest: Digest)
    | TemporaryName(id: nat)
    | OtherName(id: nat)

  /** A file holds the canonical text of one record, or something a reader must reject. */
  datatype Text = Canonical(record: Record) | Foreign(id: nat)

  type Directory = map<Name, Text>

  datatype StoreError =
    | UnexpectedEntry | InvalidRecord | ScanBoundExceeded | InvalidChain
    | ReadOnly | InvalidEvidence | HistoricalEvidence | DoesNotExtendHead
    | PublicationRaced | PublicationFailed

  function ReadRecord(v: Vertical, name: Name, text: Text): Option<Record> {
    match text
    case Foreign(_) => None
    case Canonical(r) =>
      if ValidRecord(r) && r.body.vertical == v && name == RecordName(r.digest) then Some(r) else None
  }

  // ---------------------------------------------------------------- what a directory means

  ghost function Files(dir: Directory): set<Name> { set n | n in dir && !n.TemporaryName? }

  ghost function Names(chain: seq<Record>): set<Name> { set r | r in chain :: RecordName(r.digest) }

  /** The directory holds exactly the files of `chain`, in no order, beside temporary files. */
  ghost predicate Holds(dir: Directory, chain: seq<Record>) {
    && Files(dir) == Names(chain)
    && forall r | r in chain ::
         RecordName(r.digest) in dir && dir[RecordName(r.digest)] == Canonical(r)
  }

  /** What a successful resolution of the directory returns. */
  ghost predicate ChainOf(v: Vertical, dir: Directory, chain: seq<Record>) {
    IsChain(v, chain) && |chain| <= MAX_RECORD_SCAN && Holds(dir, chain)
  }

  ghost predicate Resolves(v: Vertical, dir: Directory) { exists chain :: ChainOf(v, dir, chain) }

  lemma FileInChain(dir: Directory, chain: seq<Record>, r: Record)
    requires Holds(dir, chain)
    requires RecordName(r.digest) in dir && dir[RecordName(r.digest)] == Canonical(r)
    ensures r in chain
  {
    assert RecordName(r.digest) in Files(dir);
    var s :| s in chain && RecordName(s.digest) == RecordName(r.digest);
  }

  lemma FileReads(v: Vertical, dir: Directory, chain: seq<Record>, name: Name)
    requires ChainOf(v, dir, chain)
    requires name in dir && !name.TemporaryName?
    ensures ReadRecord(v, name, dir[name]).Some?
  {
    assert name in Files(dir);
    var r :| r in chain && name == RecordName(r.digest);
    var i :| 0 <= i < |chain| && chain[i] == r;
    assert LinkAt(v, chain, i);
  }

  /** Whatever one chain's records are listed as, sorting by generation recovers that chain. */
  lemma SortRecoversChain(v: Vertical, chain: seq<Record>, listed: seq<Record>)
    requires IsChain(v, chain)
    requires forall r :: r in listed <==> r in chain
    requires Distinct(listed)
    ensures Sort(ByGeneration(), listed) == chain
  {
    Places(v, chain);
    assert Distinct(chain);
    SameSetSameMultiset(listed, chain);
    SortIsUnique(ByGeneration(), listed, chain);
  }

  function ByGeneration(): (Record, Record) -> bool {
    (a: Record, b: Record) => Generation(a) <= Generation(b)
  }

  /** A directory resolves to one chain at most. */
  lemma ChainIsUnique(v: Vertical, dir: Directory, a: seq<Record>, b: seq<Record>)
    requires ChainOf(v, dir, a) && ChainOf(v, dir, b)
    ensures a == b
  {
    forall r ensures r in a <==> r in b {
      if r in a { assert RecordName(r.digest) in Files(dir); FileInChain(dir, b, r); }
      if r in b { assert RecordName(r.digest) in Files(dir); FileInChain(dir, a, r); }
    }
    Places(v, a);
    assert Distinct(a);
    SortRecoversChain(v, a, a);
    SortRecoversChain(v, b, a);
  }

  /** More distinct record files than a chain may have: nothing resolves. */
  lemma TooManyFiles(v: Vertical, dir: Directory, listed: seq<Record>, chain: seq<Record>)
    requires ChainOf(v, dir, chain)
    requires Distinct(listed)
    requires forall r | r in listed ::
               RecordName(r.digest) in dir && dir[RecordName(r.digest)] == Canonical(r)
    ensures |listed| <= |chain|
  {
    forall r | r in listed ensures r in chain { FileInChain(dir, chain, r); }
    ElementCount(listed);
    ElementCount(chain);
    Subset(Elements(listed), Elements(chain));
  }

  // ---------------------------------------------------------------- what an acceptance does

  datatype Decision =
    | Refuse(error: StoreError)
    | Replay(record: Record)
    | Append(record: Record)

  /** The outcome of offering `e` to the chain, before any file is touched. */
  function Decide(chain: seq<Record>, e: Evidence): Decision {
    if exists i | 0 <= i < |chain| :: chain[i].body.evidence == e then
      if chain[|chain| - 1].body.evidence == e then Replay(chain[|chain| - 1])
      else Refuse(HistoricalEvidence)
    else if chain != [] && e.body.previous != Some(chain[|chain| - 1].body.reference) then
      Refuse(DoesNotExtendHead)
    else
      match BuildRecord(e, |chain| + 1,
                        if chain == [] then None else Some(chain[|chain| - 1].digest))
      case None => Refuse(InvalidEvidence)
      case Some(r) => Append(r)
  }

  lemma DecideExtends(v: Vertical, chain: seq<Record>, e: Evidence)
    requires IsChain(v, chain) && e.body.vertical == v && ValidEvidence(e)
    ensures var d := Decide(chain, e);
            && (d.Append? ==>
                  && IsChain(v, chain + [d.record])
                  && d.record.body.evidence == e
                  && d.record !in chain
                  && Decide(chain + [d.record], e) == Replay(d.record))
            && (d.Replay? <==> chain != [] && chain[|chain| - 1].body.evidence == e)
  {
    var d := Decide(chain, e);
    if d.Append? {
      if chain != [] { assert LinkAt(v, chain, |chain| - 1); }
      AppendKeepsChain(v, chain, d.record);
      var longer := chain + [d.record];
      assert longer[|longer| - 1].body.evidence == e;
    }
  }

  /** Evidence is accepted exactly when it adopts an empty chain or advances the current head. */
  lemma AppendExactly(v: Vertical, chain: seq<Record>, e: Evidence)
    requires IsChain(v, chain) && e.body.vertical == v && ValidEvidence(e)
    ensures Decide(chain, e).Append? <==>
              if chain == [] then e.body.previous == None
              else e.body.previous == Some(chain[|chain| - 1].body.reference)
  {
    if chain != [] && e.body.previous == Some(chain[|chain| - 1].body.reference) {
      var n := |chain|;
      DepthIsGeneration(v, chain, n - 1);
      assert LinkAt(v, chain, n - 1);
      assert Depth(e.body) == n;
      forall i | 0 <= i < n ensures chain[i].body.evidence != e {
        DepthIsGeneration(v, chain, i);
      }
    }
    if chain != [] && e.body.previous == None { assert LinkAt(v, chain, |chain| - 1); }
  }

  /**
   * And every other answer: evidence of the head replays, that of any earlier record is historical, other evidence
   * that does not name the head is stale, and an advance of nothing is invalid.
   */
  lemma RefusesExactly(v: Vertical, chain: seq<Record>, e: Evidence)
    requires IsChain(v, chain) && e.body.vertical == v && ValidEvidence(e)
    ensures var known := exists i | 0 <= i < |chain| :: chain[i].body.evidence == e;
            && (Decide(chain, e).Replay? <==> chain != [] && chain[|chain| - 1].body.evidence == e)
            && (Decide(chain, e).Replay? ==> Decide(chain, e) == Replay(chain[|chain| - 1]))
            && (Decide(chain, e) == Refuse(HistoricalEvidence) <==>
                  exists i | 0 <= i < |chain| - 1 :: chain[i].body.evidence == e)
            && (Decide(chain, e) == Refuse(DoesNotExtendHead) <==>
                  !known && chain != [] && e.body.previous != Some(chain[|chain| - 1].body.reference))
            && (Decide(chain, e) == Refuse(InvalidEvidence) <==> chain == [] && e.body.previous.Some?)
            && (Decide(chain, e).Refuse? ==>
                  Decide(chain, e).error in {HistoricalEvidence, DoesNotExtendHead, InvalidEvidence})
  {
    AppendExactly(v, chain, e);
    forall i, j | 0 <= i < |chain| && 0 <= j < |chain| && chain[i].body.evidence == e && chain[j].body.evidence == e
      ensures i == j
    {
      EvidenceOccursOnce(v, chain, i, j);
    }
  }

  /** Publishing one accepted record leaves the directory holding the chain one record longer. */
  lemma PublishAppends(v: Vertical, dir: Directory, chain: seq<Record>, r: Record)
    requires IsChain(v, chain) && Holds(dir, chain)
    requires r.digest == RecordDigest(r.body) && RecordName(r.digest) !in dir
    ensures Holds(dir[RecordName(r.digest) := Canonical(r)], chain + [r])
  {
    var dir', longer := dir[RecordName(r.digest) := Canonical(r)], chain + [r];
    assert Files(dir') == Files(dir) + {RecordName(r.digest)};
    forall s | s in longer ensures
      var n := RecordName(s.digest); n in Names(longer) && n in dir' && dir'[n] == Canonical(s)
    {
      if s in chain { assert RecordName(s.digest) in Names(chain); }
    }
    forall n | n in Names(longer) ensures n in Files(dir') {
      var s :| s in longer && n == RecordName(s.digest);
      if s in chain { assert n in Names(chain); }
    }
    forall n | n in Files(dir') ensures n in Names(longer) {
      if n in Files(dir) {
        var s :| s in chain && n == RecordName(s.digest);
        assert s in longer;
      } else {
        assert r in longer;
      }
    }
  }

  /**
   * The writer does not apply the reader's scan bound. After a fresh record is published the store
   * is readable if and only if the chain it extended was shorter than the bound.
   */
  lemma ReadableAfterAppend(v: Vertical, dir: Directory, chain: seq<Record>, e: Evidence)
    requires ChainOf(v, dir, chain) && e.body.vertical == v && ValidEvidence(e)
    requires Decide(chain, e).Append?
    ensures var r := Decide(chain, e).record;
            var dir' := dir[RecordName(r.digest) := Canonical(r)];
            && RecordName(r.digest) !in dir
            && (Resolves(v, dir') <==> |chain| < 1024)
            && (|chain| < 1024 ==> ChainOf(v, dir', chain + [r]))
  {
    var r := Decide(chain, e).record;
    DecideExtends(v, chain, e);
    NewName(v, dir, chain, r);
    PublishAppends(v, dir, chain, r);
    var dir', longer := dir[RecordName(r.digest) := Canonical(r)], chain + [r];
    Places(v, longer);
    forall c | ChainOf(v, dir', c) ensures |chain| < MAX_RECORD_SCAN {
      assert Distinct(longer);
      TooManyFiles(v, dir', longer, c);
    }
    if |chain| < MAX_RECORD_SCAN { assert ChainOf(v, dir', longer); }
  }

  /** Whatever was accepted, there is evidence to accept next. */
  lemma MoreToAccept(v: Vertical, chain: seq<Record>) returns (e: Evidence)
    requires IsChain(v, chain)
    ensures ValidEvidence(e) && e.body.vertical == v && Decide(chain, e).Append?
  {
    if chain == [] {
      var state := Snapshot(v, Envelope(v, 0), Leaf(0));
      e := BuildInitialAdoption(0, true, state, 0, OtherDigest(0)).value;
    } else {
      var head := chain[|chain| - 1];
      var state := head.body.evidence.body.state;
      assert LinkAt(v, chain, |chain| - 1);
      ChainProvesConvergence(v, chain, |chain| - 1);
      PostWriteExtendsChain(v, chain, 0, true, state, state, 0, OtherDigest(0));
      e := BuildPostWrite(0, true, state, state, head.body.reference, 0, OtherDigest(0)).value;
    }
    AppendExactly(v, chain, e);
  }

  /** Chains of every readable length exist. */
  lemma {:induction false} ChainOfLength(v: Vertical, n: nat) returns (dir: Directory, chain: seq<Record>)
    requires n <= MAX_RECORD_SCAN
    ensures ChainOf(v, dir, chain) && |chain| == n
  {
    if n == 0 { return map[], []; }
    dir, chain := ChainOfLength(v, n - 1);
    var e := MoreToAccept(v, chain);
    ReadableAfterAppend(v, dir, chain, e);
    var r := Decide(chain, e).record;
    dir, chain := dir[RecordName(r.digest) := Canonical(r)], chain + [r];
  }

  /** A readable store of as many records as the bound, and valid evidence whose append makes it unreadable. */
  lemma BoundIsReached(v: Vertical) returns (dir: Directory, chain: seq<Record>, e: Evidence)
    ensures ChainOf(v, dir, chain) && |chain| == 1024
    ensures ValidEvidence(e) && e.body.vertical == v && Decide(chain, e).Append?
    ensures var r := Decide(chain, e).record;
            !Resolves(v, dir[RecordName(r.digest) := Canonical(r)])
  {
    dir, chain := ChainOfLength(v, MAX_RECORD_SCAN);
    e := MoreToAccept(v, chain);
    ReadableAfterAppend(v, dir, chain, e);
  }

  lemma NewName(v: Vertical, dir: Directory, chain: seq<Record>, r: Record)
    requires IsChain(v, chain + [r]) && Holds(dir, chain)
    ensures RecordName(r.digest) !in dir
  {
    var longer := chain + [r];
    Places(v, longer);
    assert longer[|chain|] == r;
    forall s | s in chain ensures s.digest != r.digest {
      var i :| 0 <= i < |chain| && chain[i] == s;
      assert longer[i] == s;
    }
    assert RecordName(r.digest) !in Names(chain);
    assert RecordName(r.digest) !in Files(dir);
  }

  // ---------------------------------------------------------------- the store

  /** How the publication of one file went. */
  datatype Fault = NoFault | BeforeLink | AfterLink(unlinked: bool)

  /** The effect of one call whose directory resolved and whose evidence led to `decision`. */
  ghost predicate Persisted(dir: Directory, dir': Directory, decision: Decision,
                            early: Directory, late: Directory, fault: Fault,
                            res: Result<Record, StoreError>)
  {
    match decision
    case Refuse(error) => res == Err(error) && dir' == dir
    case Replay(record) => res == Ok(record) && dir' == dir
    case Append(record) =>
      var name := RecordName(record.digest);
      var found := if name in dir || name in early then early + dir else late + (early + dir);
      if name in found then
        && (if name !in dir && name !in early && fault == BeforeLink
            then dir' == early + dir && res == Err(PublicationFailed)
            else dir' == found &&
                 res == if found[name] == Canonical(record) then Ok(record) else Err(PublicationRaced))
      else
        match fault
        case NoFault => dir' == found[name := Canonical(record)] && res == Ok(record)
        case BeforeLink => dir' == early + dir && res == Err(PublicationFailed)
        case AfterLink(unlinked) =>
          res == Err(PublicationFailed) &&
          dir' == if unlinked then found else found[name := Canonical(record)]
  }

  class ManagedStateStore {
    var accepted: map<Vertical, Directory>
    const writable: bool

    ghost predicate Valid()
      reads this
    {
      forall v: Vertical :: v in accepted
    }

    /** The record directory of one vertical. */
    function Dir(v: Vertical): Directory
      requires Valid()
      reads this
    {
      accepted[v]
    }

    constructor (writable: bool)
      ensures Valid() && this.writable == writable
      ensures forall v: Vertical :: Dir(v) == map[]
    {
      this.writable := writable;
      accepted := map[RoutedUnderlay := map[], Ospf := map[], Vlan := map[], Acl := map[]];
      new;
      forall v: Vertical ensures v in accepted {
        match v case RoutedUnderlay => case Ospf => case Vlan => case Acl =>
      }
    }

    /** `_records`: list, read, bound, sort and validate the whole directory. */
    static method Records(v: Vertical, dir: Directory) returns (res: Result<seq<Record>, StoreError>)
      ensures res.Ok? ==> ChainOf(v, dir, res.value)
      ensures res.Err? ==> !Resolves(v, dir)
    {
      var records: seq<Record> := [];
      var todo := dir.Keys;
      while todo != {}
        invariant todo <= dir.Keys
        invariant |records| <= MAX_RECORD_SCAN
        invariant Distinct(records)
        invariant forall r | r in records ::
                    && RecordName(r.digest) in dir.Keys - todo
                    && dir[RecordName(r.digest)] == Canonical(r)
                    && ValidRecord(r) && r.body.vertical == v
        invariant forall n | n in dir.Keys - todo ::
                    n.TemporaryName? || exists r | r in records :: n == RecordName(r.digest)
        decreases |todo|
      {
        var name :| name in todo;
        todo := todo - {name};
        if name.TemporaryName? { continue; }
        if !name.RecordName? {
          forall chain | ChainOf(v, dir, chain) ensures false { FileReads(v, dir, chain, name); }
          return Err(UnexpectedEntry);
        }
        var read := ReadRecord(v, name, dir[name]);
        if read == None {
          forall chain | ChainOf(v, dir, chain) ensures false { FileReads(v, dir, chain, name); }
          return Err(InvalidRecord);
        }
        ghost var before := records;
        records := records + [read.value];
        assert Distinct(records) by {
          assert forall r | r in before :: RecordName(r.digest) != name;
        }
        assert forall r | r in before :: r in records;
        if |records| > MAX_RECORD_SCAN {
          if chain: seq<Record> :| ChainOf(v, dir, chain) { TooManyFiles(v, dir, records, chain); }
          return Err(ScanBoundExceeded);
        }
      }
      res := Arrange(v, dir, records);
    }

    /** Sorting what was read, and validating it as a chain. */
    static method Arrange(v: Vertical, dir: Directory, records: seq<Record>)
      returns (res: Result<seq<Record>, StoreError>)
      requires Distinct(records) && |records| <= MAX_RECORD_SCAN
      requires forall r | r in records :: RecordName(r.digest) in dir && dir[RecordName(r.digest)] == Canonical(r)
      requires forall n | n in dir && !n.TemporaryName? :: exists r | r in records :: n == RecordName(r.digest)
      ensures res.Ok? ==> ChainOf(v, dir, res.value)
      ensures res.Err? ==> !Resolves(v, dir)
    {
      var ordered := Sort(ByGeneration(), records);
      SameMembers(ordered, records);
      if !IsChain(v, ordered) {
        if chain: seq<Record> :| ChainOf(v, dir, chain) {
          forall r ensures r in records <==> r in chain {
            if r in records { FileInChain(dir, chain, r); }
            if r in chain { assert RecordName(r.digest) in Files(dir); }
          }
          SortRecoversChain(v, chain, records);
        }
        return Err(InvalidChain);
      }
      assert Files(dir) == Names(ordered) by {
        forall n | n in Files(dir) ensures n in Names(ordered) {
          var r :| r in records && n == RecordName(r.digest);
          assert r in ordered;
        }
      }
      return Ok(ordered);
    }

    /** The first half of `persist_acceptance`: resolve the directory and place the evidence in it. */
    static method Offer(v: Vertical, dir: Directory, e: Evidence)
      returns (res: Result<Decision, StoreError>, ghost chain: seq<Record>)
      requires ValidEvidence(e) && e.body.vertical == v
      ensures res.Ok? ==> ChainOf(v, dir, chain) && res.value == Decide(chain, e)
      ensures res.Err? ==> !Resolves(v, dir)
    {
      var resolution := Records(v, dir);
      if resolution.Err? { return Err(resolution.error), []; }
      var records := resolution.value;
      var n := |records|;
      chain := records;
      for i := 0 to n
        invariant forall j | 0 <= j < i :: records[j].body.evidence != e
      {
        if records[i].body.evidence == e {
          if i == n - 1 { return Ok(Replay(records[i])), records; }
          if records[n - 1].body.evidence == e { EvidenceOccursOnce(v, records, i, n - 1); }
          return Ok(Refuse(HistoricalEvidence)), records;
        }
      }
      if n > 0 && e.body.previous != Some(records[n - 1].body.reference) {
        return Ok(Refuse(DoesNotExtendHead)), records;
      }
      var built := BuildRecord(e, n + 1, if n == 0 then None else Some(records[n - 1].digest));
      return Ok(if built.Some? then Append(built.value) else Refuse(InvalidEvidence)), records;
    }

    /**
     * `persist_acceptance`. `early` and `late` are the files other writers publish before the
     * existence check and before the link; they never replace a file that is already there.
     */
    method PersistAcceptance(e: Evidence, early: Directory, late: Directory, fault: Fault)
      returns (res: Result<Record, StoreError>, ghost chain: seq<Record>)
      requires Valid()
      modifies this
      ensures Valid()
      ensures forall v: Vertical | v != e.body.vertical :: Dir(v) == old(Dir(v))
      ensures var v := e.body.vertical;
              if !writable then res == Err(ReadOnly) && accepted == old(accepted)
              else if !ValidEvidence(e) then res == Err(InvalidEvidence) && accepted == old(accepted)
              else if !Resolves(v, old(Dir(v))) then res.Err? && accepted == old(accepted)
              else
                && ChainOf(v, old(Dir(v)), chain)
                && Persisted(old(Dir(v)), Dir(v), Decide(chain, e), early, late, fault, res)
    {
      chain := [];
      if !writable { return Err(ReadOnly), []; }
      if !ValidEvidence(e) { return Err(InvalidEvidence), []; }
      var v := e.body.vertical;
      var offered, resolved := Offer(v, accepted[v], e);
      if offered.Err? { return Err(offered.error), []; }
      chain := resolved;
      match offered.value
      case Refuse(error) => res := Err(error);
      case Replay(record) => res := Ok(record);
      case Append(record) =>
        var dir;
        res, dir := PublishRecord(v, accepted[v], record, early, late, fault);
        accepted := accepted[v := dir];
    }

    /** The second half: publish under the digest's own name, or find the name already there. */
    static method PublishRecord(v: Vertical, before: Directory, record: Record,
                                early: Directory, late: Directory, fault: Fault)
      returns (res: Result<Record, StoreError>, dir: Directory)
      requires ValidRecord(record) && record.body.vertical == v
      ensures Persisted(before, dir, Append(record), early, late, fault, res)
    {
      var name := RecordName(record.digest);
      dir := early + before;
      if name in dir {
        res := if ReadRecord(v, name, dir[name]) == Some(record) then Ok(record) else Err(PublicationRaced);
        return;
      }
      if fault == BeforeLink { return Err(PublicationFailed), dir; }
      dir := late + dir;
      if name in dir {
        res := if ReadRecord(v, name, dir[name]) == Some(record) then Ok(record) else Err(PublicationRaced);
        return;
      }
      dir := dir[name := Canonical(record)];
      res := Ok(record);
      if fault.AfterLink? {
        if fault.unlinked { dir := dir - {name}; }
        res := Err(PublicationFailed);
      }
    }

    /**
     * Offering several acceptances to one vertical, in turn and with no other writer: the directory comes
     * to hold the plain list's last value, and each call returns what the list answers at that moment.
     */
    method AcceptAll(v: Vertical, offers: seq<Evidence>, ghost chain: seq<Record>)
      returns (results: seq<Result<Record, StoreError>>)
      requires Valid() && writable
      requires ChainOf(v, Dir(v), chain)
      requires forall e | e in offers :: e.body.vertical == v
      requires |AcceptedInto(chain, offers)| <= MAX_RECORD_SCAN
      modifies this
      ensures Valid()
      ensures ChainOf(v, Dir(v), AcceptedInto(chain, offers))
      ensures results == Results(chain, offers)
      ensures forall w: Vertical | w != v :: Dir(w) == old(Dir(w))
    {
      ghost var current := chain;
      results := [];
      for i := 0 to |offers|
        invariant Valid()
        invariant AcceptedInto(chain, offers) == AcceptedInto(current, offers[i..])
        invariant Results(chain, offers) == results + Results(current, offers[i..])
        invariant ChainOf(v, Dir(v), current)
        invariant forall w: Vertical | w != v :: Dir(w) == old(Dir(w))
      {
        ghost var dir, next := Dir(v), Grown(current, Answer(current, offers[i]));
        FoldStep(v, current, offers, i);
        var result, resolved := PersistAcceptance(offers[i], map[], map[], NoFault);
        if ValidEvidence(offers[i]) {
          ChainIsUnique(v, dir, resolved, current);
          AcceptOne(v, dir, Dir(v), current, offers[i], result);
        }
        Regroup(results, Returned(Answer(current, offers[i])), Results(next, offers[i + 1..]));
        results := results + [result];
        current := next;
      }
    }
  }

  // ---------------------------------------------------------------- refinement of a plain list

  /** What the plain append-only list the store refines does with an offer. */
  function Answer(chain: seq<Record>, e: Evidence): Decision {
    if ValidEvidence(e) then Decide(chain, e) else Refuse(InvalidEvidence)
  }

  function Grown(chain: seq<Record>, d: Decision): seq<Record> {
    if d.Append? then chain + [d.record] else chain
  }

  function Returned(d: Decision): Result<Record, StoreError> {
    match d
    case Refuse(error) => Err(error)
    case Replay(record) => Ok(record)
    case Append(record) => Ok(record)
  }

  function AcceptedInto(chain: seq<Record>, offers: seq<Evidence>): seq<Record>
    decreases |offers|
  {
    if offers == [] then chain else AcceptedInto(Grown(chain, Answer(chain, offers[0])), offers[1..])
  }

  function Results(chain: seq<Record>, offers: seq<Evidence>): seq<Result<Record, StoreError>>
    decreases |offers|
  {
    if offers == [] then []
    else
      var d := Answer(chain, offers[0]);
      [Returned(d)] + Results(Grown(chain, d), offers[1..])
  }

  lemma Regroup<T>(a: seq<T>, x: T, b: seq<T>)
    ensures a + ([x] + b) == (a + [x]) + b
  {}

  lemma FoldStep(v: Vertical, chain: seq<Record>, offers: seq<Evidence>, i: nat)
    requires IsChain(v, chain) && i < |offers|
    requires forall e | e in offers :: e.body.vertical == v
    ensures var d := Answer(chain, offers[i]);
            && AcceptedInto(chain, offers[i..]) == AcceptedInto(Grown(chain, d), offers[i + 1..])
            && Results(chain, offers[i..]) == [Returned(d)] + Results(Grown(chain, d), offers[i + 1..])
            && IsChain(v, Grown(chain, d))
            && |Grown(chain, d)| <= |AcceptedInto(chain, offers[i..])|
  {
    var next := Grown(chain, Answer(chain, offers[i]));
    assert offers[i..][0] == offers[i] && offers[i..][1..] == offers[i + 1..];
    if ValidEvidence(offers[i]) { DecideExtends(v, chain, offers[i]); }
    AcceptedIntoExtends(v, next, offers[i + 1..]);
  }

  /** One fault-free call by the only writer takes the directory to the list's next value. */
  lemma AcceptOne(v: Vertical, dir: Directory, dir': Directory, chain: seq<Record>, e: Evidence,
                  result: Result<Record, StoreError>)
    requires ChainOf(v, dir, chain) && ValidEvidence(e) && e.body.vertical == v
    requires |Grown(chain, Answer(chain, e))| <= MAX_RECORD_SCAN
    requires Persisted(dir, dir', Decide(chain, e), map[], map[], NoFault, result)
    ensures ChainOf(v, dir', Grown(chain, Answer(chain, e)))
    ensures result == Returned(Answer(chain, e))
  {
    if Decide(chain, e).Append? {
      ReadableAfterAppend(v, dir, chain, e);
      assert map[] + dir == dir && map[] + (map[] + dir) == dir;
    }
  }

  /** Nothing accepted is ever dropped or reordered, and what is added keeps the chain a chain. */
  lemma {:induction false} AcceptedIntoExtends(v: Vertical, chain: seq<Record>, offers: seq<Evidence>)
    requires IsChain(v, chain)
    requires forall e | e in offers :: e.body.vertical == v
    ensures chain <= AcceptedInto(chain, offers)
    ensures IsChain(v, AcceptedInto(chain, offers))
    decreases |offers|
  {
    if offers != [] {
      if ValidEvidence(offers[0]) { DecideExtends(v, chain, offers[0]); }
      AcceptedIntoExtends(v, Grown(chain, Answer(chain, offers[0])), offers[1..]);
    }
  }

  lemma NextDecision(v: Vertical, chain: seq<Record>, n: nat)
    requires IsChain(v, chain) && n < |chain|
    ensures IsChain(v, chain[..n])
    ensures Answer(chain[..n], chain[n].body.evidence) == Append(chain[n])
  {
    var r, before := chain[n], chain[..n];
    PrefixIsChain(v, chain, n);
    assert LinkAt(v, chain, n);
    if n > 0 { assert before[n - 1] == chain[n - 1]; }
    AppendExactly(v, before, r.body.evidence);
    var previous := if before == [] then None else Some(before[|before| - 1].digest);
    assert BuildRecord(r.body.evidence, n + 1, previous) == Some(r);
  }

  /** Offering an accepted history again, from any point of it, reproduces it record by record. */
  lemma {:induction false} ReplayingHistory(v: Vertical, chain: seq<Record>, n: nat)
    requires IsChain(v, chain) && n <= |chain|
    ensures AcceptedInto(chain[..n], Evidences(chain[n..])) == chain
    decreases |chain| - n
  {
    if n == |chain| {
      assert chain[..n] == chain && chain[n..] == [];
    } else {
      NextDecision(v, chain, n);
      ReplayingHistory(v, chain, n + 1);
      assert chain[n..][0] == chain[n] && chain[n..][1..] == chain[n + 1..];
      assert chain[..n] + [chain[n]] == chain[..n + 1];
      var offers := Evidences(chain[n..]);
      assert offers[0] == chain[n].body.evidence && offers[1..] == Evidences(chain[n + 1..]);
    }
  }

  function Evidences(chain: seq<Record>): (r: seq<Evidence>)
    ensures |r| == |chain|
  {
    if chain == [] then [] else [chain[0].body.evidence] + Evidences(chain[1..])
  }
}
