/**
 * The bounded tree diff that names the fields a continuity check found changed. Object keys are
 * numbers, in the order in which their names sort; a missing key or index reads as null.
 */
module DiffPaths {
  import opened JsonTrees

  const MAX_PATHS := 16

  datatype Step = Key(key: nat) | Index(index: nat)

  type Path = seq<Step>

  // ---------------------------------------------------------------- looking things up

  function Child(t: Json, s: Step): Json {
    match s
    case Key(k) => if t.Obj? && k in t.fields then t.fields[k] else Null
    case Index(i) => if t.Arr? && i < |t.items| then t.items[i] else Null
  }

  function At(t: Json, p: Path): Json
    decreases |p|
  {
    if p == [] then t else At(Child(t, p[0]), p[1..])
  }

  datatype Form = NullForm | LeafForm(value: nat) | ObjForm | ArrForm

  function Shape(t: Json): Form {
    match t
    case Null => NullForm
    case Leaf(v) => LeafForm(v)
    case Obj(_) => ObjForm
    case Arr(_) => ArrForm
  }

  /** No lookup tells the trees apart: they are equal up to missing values being null. */
  ghost predicate SameUpToNull(a: Json, b: Json) {
    forall q: Path :: Shape(At(a, q)) == Shape(At(b, q))
  }

  // ---------------------------------------------------------------- all differences

  predicate Least(m: nat, keys: set<nat>) { m in keys && forall k | k in keys :: m <= k }

  lemma {:induction false} LeastExists(keys: set<nat>)
    requires keys != {}
    ensures exists m :: Least(m, keys)
  {
    var m :| m in keys;
    if keys == {m} {
      assert Least(m, keys);
    } else {
      LeastExists(keys - {m});
      var n :| Least(n, keys - {m});
      var least := if m <= n then m else n;
      forall k | k in keys ensures least <= k { assert k == m || k in keys - {m}; }
      assert Least(least, keys);
    }
  }

  predicate Increasing(s: seq<nat>) { forall i, j | 0 <= i < j < |s| :: s[i] < s[j] }

  lemma LeastFirst(m: nat, rest: seq<nat>)
    requires Increasing(rest) && forall i | 0 <= i < |rest| :: m < rest[i]
    ensures Increasing([m] + rest)
  {}

  /** `sorted(set)`. */
  function Sorted(keys: set<nat>): (s: seq<nat>)
    ensures forall k | k in keys :: k in s
    ensures forall i | 0 <= i < |s| :: s[i] in keys
    ensures Increasing(s)
  {
    if keys == {} then []
    else
      LeastExists(keys);
      var m :| Least(m, keys);
      var rest := Sorted(keys - {m});
      LeastFirst(m, rest);
      [m] + rest
  }

  predicate BothContainers(a: Json, b: Json) { (a.Obj? && b.Obj?) || (a.Arr? && b.Arr?) }

  /** The steps a comparison of two containers of one kind takes, in order. */
  function Steps(a: Json, b: Json): seq<Step>
    requires BothContainers(a, b)
  {
    if a.Obj? then
      var keys := Sorted(a.fields.Keys + b.fields.Keys);
      seq(|keys|, i requires 0 <= i < |keys| => Key(keys[i]))
    else
      seq(if |a.items| < |b.items| then |b.items| else |a.items|, i requires 0 <= i => Index(i))
  }

  function Under(p: Path, ps: seq<Path>): (r: seq<Path>)
    ensures |r| == |ps| && forall i | 0 <= i < |ps| :: r[i] == p + ps[i]
  {
    seq(|ps|, i requires 0 <= i < |ps| => p + ps[i])
  }

  /** Every difference, without any bound, as paths from here. */
  function AllDiffs(a: Json, b: Json): seq<Path>
    decreases !a.Null?, a
  {
    if a == b then []
    else if BothContainers(a, b) then ChildDiffs(a, b, Steps(a, b))
    else [[]]
  }

  function ChildDiffs(a: Json, b: Json, steps: seq<Step>): seq<Path>
    requires BothContainers(a, b)
    decreases !a.Null?, a, |steps|
  {
    if steps == [] then []
    else Under([steps[0]], AllDiffs(Child(a, steps[0]), Child(b, steps[0]))) + ChildDiffs(a, b, steps[1..])
  }

  function FirstSixteen(ps: seq<Path>): (r: seq<Path>)
    ensures |r| <= MAX_PATHS
  {
    if |ps| <= MAX_PATHS then ps else ps[..MAX_PATHS]
  }

  /** What the diff reports: the first sixteen differences, or the root when there is none to name. */
  function Report(a: Json, b: Json): seq<Path> {
    if AllDiffs(a, b) == [] then [[]] else FirstSixteen(AllDiffs(a, b))
  }

  // ---------------------------------------------------------------- the recursion with its shared list

  class Differences {
    var found: seq<Path>

    constructor ()
      ensures found == []
    {
      found := [];
    }

    /** `visit`: it stops adding once the shared list holds sixteen paths. */
    method Visit(first: Json, second: Json, path: Path)
      requires |found| <= MAX_PATHS
      modifies this
      ensures found == FirstSixteen(old(found) + Under(path, AllDiffs(first, second)))
      decreases !first.Null?, first
    {
      if |found| >= MAX_PATHS || first == second { return; }
      if BothContainers(first, second) {
        var steps := Steps(first, second);
        for i := 0 to |steps|
          invariant |found| <= MAX_PATHS
          invariant FirstSixteen(found + Under(path, ChildDiffs(first, second, steps[i..])))
                    == FirstSixteen(old(found) + Under(path, ChildDiffs(first, second, steps)))
        {
          ghost var before := found;
          Visit(Child(first, steps[i]), Child(second, steps[i]), path + [steps[i]]);
          VisitedOne(before, first, second, path, steps[i..]);
        }
        assert steps[|steps|..] == [];
        return;
      }
      found := found + [path];
      assert path + [] == path;
      assert Under(path, [[]]) == [path];
    }
  }

  lemma UnderStep(path: Path, s: Step, ps: seq<Path>)
    ensures Under(path, Under([s], ps)) == Under(path + [s], ps)
  {
    forall i | 0 <= i < |ps| ensures path + ([s] + ps[i]) == path + [s] + ps[i] {}
  }

  lemma UnderJoin(path: Path, ps: seq<Path>, qs: seq<Path>)
    ensures Under(path, ps + qs) == Under(path, ps) + Under(path, qs)
  {}

  lemma FirstSixteenJoin(before: seq<Path>, ps: seq<Path>, qs: seq<Path>)
    ensures FirstSixteen(FirstSixteen(before + ps) + qs) == FirstSixteen(before + (ps + qs))
  {
    assert before + (ps + qs) == (before + ps) + qs;
  }

  lemma VisitedOne(before: seq<Path>, a: Json, b: Json, path: Path, steps: seq<Step>)
    requires BothContainers(a, b) && steps != [] && |before| <= MAX_PATHS
    ensures var s := steps[0];
            var found := FirstSixteen(before + Under(path + [s], AllDiffs(Child(a, s), Child(b, s))));
            FirstSixteen(found + Under(path, ChildDiffs(a, b, steps[1..])))
            == FirstSixteen(before + Under(path, ChildDiffs(a, b, steps)))
  {
    var s := steps[0];
    var here, rest := AllDiffs(Child(a, s), Child(b, s)), ChildDiffs(a, b, steps[1..]);
    UnderStep(path, s, here);
    UnderJoin(path, Under([s], here), rest);
    FirstSixteenJoin(before, Under(path + [s], here), Under(path, rest));
  }

  lemma UnderRoot(ps: seq<Path>)
    ensures Under([], ps) == ps
  {
    forall i | 0 <= i < |ps| ensures Under([], ps)[i] == ps[i] { assert [] + ps[i] == ps[i]; }
  }

  /** `_managed_diff_paths`. */
  method ManagedDiffPaths(left: Json, right: Json) returns (paths: seq<Path>)
    ensures paths == Report(left, right) && 1 <= |paths| <= 16
  {
    var differences := new Differences();
    differences.Visit(left, right, []);
    UnderRoot(AllDiffs(left, right));
    assert [] + AllDiffs(left, right) == AllDiffs(left, right);
    paths := if differences.found == [] then [[]] else differences.found;
  }
}
