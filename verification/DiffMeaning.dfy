/** What the reported paths mean: where the trees differ, and how to rebuild one from the other. */
module DiffMeaning {
  import opened Sequences
  import opened JsonTrees
  import opened DiffPaths

  /** Every step of the path finds a container of its own kind. */
  predicate Fits(t: Json, p: Path)
    decreases |p|
  {
    p == [] || (Matches(t, p[0]) && Fits(Child(t, p[0]), p[1..]))
  }

  lemma {:induction false} AtCompose(t: Json, p: Path, q: Path)
    ensures At(t, p + q) == At(At(t, p), q)
    decreases |p|
  {
    if p == [] {
      assert p + q == q;
    } else {
      assert (p + q)[0] == p[0] && (p + q)[1..] == p[1..] + q;
      AtCompose(Child(t, p[0]), p[1..], q);
    }
  }

  // ---------------------------------------------------------------- soundness and completeness of the list

  /** A difference: both trees lead there, and what they hold there differs even up to missing being null. */
  ghost predicate Difference(a: Json, b: Json, p: Path) {
    Fits(a, p) && Fits(b, p) && Shape(At(a, p)) != Shape(At(b, p))
  }

  lemma StepsAreComplete(a: Json, b: Json, s: Step)
    requires BothContainers(a, b)
    requires Child(a, s) != Null || Child(b, s) != Null
    ensures s in Steps(a, b)
  {
    if a.Obj? {
      var keys := Sorted(a.fields.Keys + b.fields.Keys);
      assert s.key in keys;
      var i :| 0 <= i < |keys| && keys[i] == s.key;
      assert Steps(a, b)[i] == s;
    } else {
      assert Steps(a, b)[s.index] == s;
    }
  }

  predicate Matches(t: Json, s: Step) { if s.Key? then t.Obj? else t.Arr? }

  predicate AllMatch(t: Json, steps: seq<Step>) { forall i | 0 <= i < |steps| :: Matches(t, steps[i]) }

  lemma StepsMatch(a: Json, b: Json)
    requires BothContainers(a, b)
    ensures AllMatch(a, Steps(a, b))
  {}

  lemma DifferenceBelow(a: Json, b: Json, s: Step, p: Path)
    requires BothContainers(a, b) && Matches(a, s) && Difference(Child(a, s), Child(b, s), p)
    ensures Difference(a, b, [s] + p)
  {
    assert ([s] + p)[0] == s && ([s] + p)[1..] == p;
  }

  /** The differences below each step. */
  function Parts(a: Json, b: Json, steps: seq<Step>): (parts: seq<seq<Path>>)
    ensures |parts| == |steps|
  {
    seq(|steps|, m requires 0 <= m < |steps| => Part(a, b, steps[m]))
  }

  function Part(a: Json, b: Json, s: Step): seq<Path> { Under([s], AllDiffs(Child(a, s), Child(b, s))) }

  lemma {:induction false} ChildDiffsInParts(a: Json, b: Json, steps: seq<Step>)
    requires BothContainers(a, b)
    ensures ChildDiffs(a, b, steps) == Flatten(Parts(a, b, steps))
    decreases |steps|
  {
    if steps != [] {
      ChildDiffsInParts(a, b, steps[1..]);
      assert Parts(a, b, steps)[1..] == Parts(a, b, steps[1..]);
    }
  }

  /** Each listed difference is one below some step; different ones below one step are listed apart. */
  lemma Origin(a: Json, b: Json, i: nat) returns (m: nat, k: nat)
    requires BothContainers(a, b) && i < |AllDiffs(a, b)|
    ensures m < |Steps(a, b)| && k < |Part(a, b, Steps(a, b)[m])|
    ensures AllDiffs(a, b)[i] == Part(a, b, Steps(a, b)[m])[k]
    ensures i == |Flatten(Parts(a, b, Steps(a, b))[..m])| + k
  {
    var parts := Parts(a, b, Steps(a, b));
    ChildDiffsInParts(a, b, Steps(a, b));
    m, k := PlaceInParts(parts, i);
    assert parts[m] == Part(a, b, Steps(a, b)[m]);
  }

  lemma {:induction false} DiffsAreDifferences(a: Json, b: Json, i: nat)
    requires i < |AllDiffs(a, b)|
    ensures Difference(a, b, AllDiffs(a, b)[i])
    decreases !a.Null?, a
  {
    if BothContainers(a, b) {
      StepsMatch(a, b);
      var m, k := Origin(a, b, i);
      var s := Steps(a, b)[m];
      DiffsAreDifferences(Child(a, s), Child(b, s), k);
      DifferenceBelow(a, b, s, AllDiffs(Child(a, s), Child(b, s))[k]);
    }
  }

  /** A difference below a step is listed, with that step before it. */
  lemma ListedBelow(a: Json, b: Json, s: Step, k: nat)
    requires BothContainers(a, b) && a != b && s in Steps(a, b) && k < |AllDiffs(Child(a, s), Child(b, s))|
    ensures [s] + AllDiffs(Child(a, s), Child(b, s))[k] in AllDiffs(a, b)
  {
    var parts := Parts(a, b, Steps(a, b));
    ChildDiffsInParts(a, b, Steps(a, b));
    var m :| 0 <= m < |Steps(a, b)| && Steps(a, b)[m] == s;
    assert parts[m] == Part(a, b, s);
    InOnePart(parts, m, k);
  }

  ghost predicate Covered(ps: seq<Path>, q: Path) { exists p :: p in ps && p <= q }

  lemma CoveredBelow(a: Json, b: Json, s: Step, q: Path)
    requires BothContainers(a, b) && a != b && s in Steps(a, b) && Covered(AllDiffs(Child(a, s), Child(b, s)), q)
    ensures Covered(AllDiffs(a, b), [s] + q)
  {
    var here := AllDiffs(Child(a, s), Child(b, s));
    var p :| p in here && p <= q;
    var k :| 0 <= k < |here| && here[k] == p;
    ListedBelow(a, b, s, k);
    BelowStep(s, p, q);
    assert [s] + p in AllDiffs(a, b);
  }

  lemma BelowStep(s: Step, p: Path, q: Path)
    requires p <= q
    ensures [s] + p <= [s] + q
  {}

  /** Wherever a lookup tells the trees apart, one of the listed paths leads there or above. */
  lemma {:induction false} DiffsCover(a: Json, b: Json, q: Path)
    requires Shape(At(a, q)) != Shape(At(b, q))
    ensures Covered(AllDiffs(a, b), q)
    decreases |q|
  {
    if !BothContainers(a, b) {
      assert AllDiffs(a, b) == [[]] && [] in AllDiffs(a, b);
    } else {
      var s := q[0];
      DiffersBelow(a, b, q);
      DiffsCover(Child(a, s), Child(b, s), q[1..]);
      CoveredBelow(a, b, s, q[1..]);
      assert q == [s] + q[1..];
    }
  }

  /** Two containers that a lookup tells apart are told apart below its first step, which is one of their steps. */
  lemma DiffersBelow(a: Json, b: Json, q: Path)
    requires BothContainers(a, b) && Shape(At(a, q)) != Shape(At(b, q))
    ensures q != [] && a != b && q[0] in Steps(a, b)
    ensures Shape(At(Child(a, q[0]), q[1..])) != Shape(At(Child(b, q[0]), q[1..]))
  {
    AtNull(q[1..]);
    StepsAreComplete(a, b, q[0]);
  }

  lemma {:induction false} AtNull(q: Path)
    ensures At(Null, q) == Null
    decreases |q|
  {
    if q != [] { AtNull(q[1..]); }
  }

  /** The list is empty exactly when no lookup tells the trees apart. */
  lemma NoDiffsExactly(a: Json, b: Json)
    ensures AllDiffs(a, b) == [] <==> SameUpToNull(a, b)
  {
    if AllDiffs(a, b) == [] {
      forall q: Path ensures Shape(At(a, q)) == Shape(At(b, q)) {
        if Shape(At(a, q)) != Shape(At(b, q)) { DiffsCover(a, b, q); }
      }
    } else {
      DiffsAreDifferences(a, b, 0);
    }
  }

  /**
   * Every reported path leads to unequal values; the one exception is the root, reported as a fallback
   * exactly when the trees are equal up to missing values being null.
   */
  lemma ReportedPathsDiffer(a: Json, b: Json, p: Path)
    requires p in Report(a, b)
    ensures if SameUpToNull(a, b) then p == [] && |Report(a, b)| == 1 else Difference(a, b, p) && At(a, p) != At(b, p)
  {
    NoDiffsExactly(a, b);
    if !SameUpToNull(a, b) {
      var i :| 0 <= i < |Report(a, b)| && Report(a, b)[i] == p;
      assert AllDiffs(a, b)[i] == p;
      DiffsAreDifferences(a, b, i);
    }
  }

  predicate StepLess(s: Step, t: Step) {
    if s.Key? then t.Key? && s.key < t.key else t.Index? && s.index < t.index
  }

  /** The order of paths: at their first difference, by the order of keys or of indices. */
  predicate PathLess(p: Path, q: Path) {
    p != [] && q != [] && (StepLess(p[0], q[0]) || (p[0] == q[0] && PathLess(p[1..], q[1..])))
  }

  lemma StepsInOrder(a: Json, b: Json, m: nat, n: nat)
    requires BothContainers(a, b) && m < n < |Steps(a, b)|
    ensures StepLess(Steps(a, b)[m], Steps(a, b)[n])
  {}

  /** The differences are listed in strictly increasing order, so that the first sixteen are the least sixteen. */
  lemma {:induction false} DiffsAreOrdered(a: Json, b: Json, i: nat, j: nat)
    requires i < j < |AllDiffs(a, b)|
    ensures PathLess(AllDiffs(a, b)[i], AllDiffs(a, b)[j])
    decreases !a.Null?, a
  {
    var m, k := Origin(a, b, i);
    var n, l := Origin(a, b, j);
    var s, t := Steps(a, b)[m], Steps(a, b)[n];
    if m == n {
      DiffsAreOrdered(Child(a, s), Child(b, s), k, l);
      SameStep(s, AllDiffs(Child(a, s), Child(b, s))[k], AllDiffs(Child(a, s), Child(b, s))[l]);
    } else {
      LaterPart(Parts(a, b, Steps(a, b)), m, k, n, l);
      StepsInOrder(a, b, m, n);
      assert Part(a, b, s)[k][0] == s && Part(a, b, t)[l][0] == t;
    }
  }

  lemma SameStep(s: Step, p: Path, q: Path)
    requires PathLess(p, q)
    ensures PathLess([s] + p, [s] + q)
  {
    assert ([s] + p)[1..] == p && ([s] + q)[1..] == q;
  }

  /** The later place lies in the later part. */
  lemma LaterPart(parts: seq<seq<Path>>, m: nat, k: nat, n: nat, l: nat)
    requires m < |parts| && n < |parts| && k < |parts[m]| && l < |parts[n]|
    requires |Flatten(parts[..m])| + k < |Flatten(parts[..n])| + l
    ensures m <= n
  {
    if n < m { PartsBefore(parts, n, m); }
  }

  lemma {:induction false} PartsBefore(parts: seq<seq<Path>>, n: nat, m: nat)
    requires n < m <= |parts|
    ensures |Flatten(parts[..n])| + |parts[n]| <= |Flatten(parts[..m])|
    decreases m
  {
    assert parts[..m] == parts[..m - 1] + [parts[m - 1]];
    FlattenOneMore(parts[..m - 1], parts[m - 1]);
    if n < m - 1 { PartsBefore(parts, n, m - 1); }
  }

  lemma {:induction false} LessMeansApart(p: Path, q: Path)
    requires PathLess(p, q)
    ensures !(p <= q) && !(q <= p)
  {
    if p[0] == q[0] && !StepLess(p[0], q[0]) { LessMeansApart(p[1..], q[1..]); }
  }

  /** No reported path is listed twice or lies under another. */
  lemma DiffsDoNotOverlap(a: Json, b: Json, i: nat, j: nat)
    requires i < |AllDiffs(a, b)| && j < |AllDiffs(a, b)| && i != j
    ensures !(AllDiffs(a, b)[i] <= AllDiffs(a, b)[j])
  {
    if i < j {
      DiffsAreOrdered(a, b, i, j);
      LessMeansApart(AllDiffs(a, b)[i], AllDiffs(a, b)[j]);
    } else {
      DiffsAreOrdered(a, b, j, i);
      LessMeansApart(AllDiffs(a, b)[j], AllDiffs(a, b)[i]);
    }
  }

  /** What is reported: the least sixteen differences or all of fewer, and the root alone when there is none. */
  lemma ReportExactly(a: Json, b: Json)
    ensures SameUpToNull(a, b) ==> Report(a, b) == [[]]
    ensures !SameUpToNull(a, b) ==>
              && Report(a, b) <= AllDiffs(a, b)
              && |Report(a, b)| == if |AllDiffs(a, b)| < 16 then |AllDiffs(a, b)| else 16
  {
    NoDiffsExactly(a, b);
  }

  // ---------------------------------------------------------------- patching

  function Put(items: seq<Json>, i: nat, v: Json): seq<Json> {
    if i < |items| then items[i := v] else items + seq(i - |items|, _ => Null) + [v]
  }

  /** The tree with `v` at `p`. */
  function SetAt(t: Json, p: Path, v: Json): Json
    decreases |p|
  {
    if p == [] then v
    else
      var below := SetAt(Child(t, p[0]), p[1..], v);
      match (t, p[0])
      case (Obj(fields), Key(k)) => Obj(fields[k := below])
      case (Arr(items), Index(i)) => Arr(Put(items, i, below))
      case _ => t
  }

  lemma {:induction false} SetThenLookUp(t: Json, p: Path, v: Json, q: Path)
    requires Fits(t, p)
    ensures p <= q ==> At(SetAt(t, p, v), q) == At(v, q[|p|..])
    ensures !(p <= q) ==> Shape(At(SetAt(t, p, v), q)) == Shape(At(t, q))
    decreases |p|
  {
    if p != [] && q != [] {
      var u := SetAt(t, p, v);
      if p[0] == q[0] {
        assert Child(u, q[0]) == SetAt(Child(t, p[0]), p[1..], v);
        SetThenLookUp(Child(t, p[0]), p[1..], v, q[1..]);
        assert p <= q <==> p[1..] <= q[1..];
      } else {
        assert Child(u, q[0]) == Child(t, q[0]);
      }
    }
  }

  /** The tree patched at each path in turn with what `source` holds there. */
  function PatchAll(t: Json, source: Json, ps: seq<Path>): Json
    decreases |ps|
  {
    if ps == [] then t
    else
      var n := |ps| - 1;
      SetAt(PatchAll(t, source, ps[..n]), ps[n], At(source, ps[n]))
  }

  /** Patched so far: under the paths done it looks like `r`, elsewhere like `l`. */
  ghost predicate Patched(current: Json, l: Json, r: Json, done: seq<Path>) {
    forall q: Path :: Shape(At(current, q)) == Shape(At(if Covered(done, q) then r else l, q))
  }

  ghost predicate Mixed(current: Json, l: Json, r: Json) {
    forall q: Path :: Shape(At(current, q)) == Shape(At(l, q)) || Shape(At(current, q)) == Shape(At(r, q))
  }

  lemma {:induction false} StillFits(current: Json, l: Json, r: Json, p: Path)
    requires Fits(l, p) && Fits(r, p) && Mixed(current, l, r)
    ensures Fits(current, p)
    decreases |p|
  {
    if p != [] {
      assert Shape(At(current, [])) == Shape(At(l, [])) || Shape(At(current, [])) == Shape(At(r, []));
      forall q: Path
        ensures Shape(At(Child(current, p[0]), q)) == Shape(At(Child(l, p[0]), q))
                || Shape(At(Child(current, p[0]), q)) == Shape(At(Child(r, p[0]), q))
      {
        var longer := [p[0]] + q;
        assert longer[0] == p[0] && longer[1..] == q;
        assert Shape(At(current, longer)) == Shape(At(l, longer)) || Shape(At(current, longer)) == Shape(At(r, longer));
      }
      StillFits(Child(current, p[0]), Child(l, p[0]), Child(r, p[0]), p[1..]);
    }
  }

  lemma PatchOne(current: Json, l: Json, r: Json, done: seq<Path>, p: Path)
    requires Patched(current, l, r, done) && Fits(l, p) && Fits(r, p)
    ensures Patched(SetAt(current, p, At(r, p)), l, r, done + [p])
  {
    assert Mixed(current, l, r);
    StillFits(current, l, r, p);
    var next := SetAt(current, p, At(r, p));
    forall q: Path
      ensures Shape(At(next, q)) == Shape(At(if Covered(done + [p], q) then r else l, q))
    {
      SetThenLookUp(current, p, At(r, p), q);
      CoveredByOneMore(done, p, q);
      if p <= q {
        AtCompose(r, p, q[|p|..]);
        assert p + q[|p|..] == q;
      } else {
        assert Shape(At(current, q)) == Shape(At(if Covered(done, q) then r else l, q));
      }
    }
  }

  lemma CoveredByOneMore(done: seq<Path>, p: Path, q: Path)
    ensures Covered(done + [p], q) <==> Covered(done, q) || p <= q
  {
    if Covered(done, q) {
      var d :| d in done && d <= q;
      assert d in done + [p];
    }
    if p <= q { assert p in done + [p]; }
  }

  lemma {:induction false} PatchSome(l: Json, r: Json, ps: seq<Path>)
    requires forall i | 0 <= i < |ps| :: Fits(l, ps[i]) && Fits(r, ps[i])
    ensures Patched(PatchAll(l, r, ps), l, r, ps)
    decreases |ps|
  {
    if ps != [] {
      var n := |ps| - 1;
      forall i | 0 <= i < n ensures Fits(l, ps[..n][i]) && Fits(r, ps[..n][i]) { assert ps[..n][i] == ps[i]; }
      PatchSome(l, r, ps[..n]);
      PatchOne(PatchAll(l, r, ps[..n]), l, r, ps[..n], ps[n]);
      assert ps[..n] + [ps[n]] == ps;
    }
  }

  /**
   * With fewer than sixteen reported paths nothing was cut off: patching the left tree at them from the
   * right one gives the right one, up to missing values being null.
   */
  lemma ReportRebuilds(l: Json, r: Json)
    requires |Report(l, r)| < 16
    ensures SameUpToNull(PatchAll(l, r, AllDiffs(l, r)), r)
    ensures SameUpToNull(PatchAll(l, r, Report(l, r)), r)
  {
    var ps := AllDiffs(l, r);
    forall i | 0 <= i < |ps| ensures Fits(l, ps[i]) && Fits(r, ps[i]) { DiffsAreDifferences(l, r, i); }
    PatchSome(l, r, ps);
    var patched := PatchAll(l, r, ps);
    forall q: Path ensures Shape(At(patched, q)) == Shape(At(r, q)) {
      assert Shape(At(patched, q)) == Shape(At(if Covered(ps, q) then r else l, q));
      if Shape(At(l, q)) != Shape(At(r, q)) { DiffsCover(l, r, q); }
    }
    if ps == [] { assert PatchAll(l, r, [[]]) == r; }
  }
}
