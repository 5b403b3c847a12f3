/**
 * Fleet planning: freezing the members in key order, one canary per platform, waves of bounded size;
 * and the checks that compare a fresh selection with the frozen members.
 */
module Fleet {
  import opened Sequences

  datatype Platform = CiscoIosxe | Junos

  /** The frozen facts of one member that the cohorts and the later checks depend on. */
  datatype Member = Member(
    id: string, target: string, interfaceId: string, platform: Platform, child: Option<Child>, binding: nat)
  {
    predicate Deployable() { child.Some? }
  }

  /** What the child plan of a deployable member expects to find. */
  datatype Child = Child(signed: bool, currentDescription: Option<string>, hostname: string)

  // ---------------------------------------------------------------- the key order

  predicate TextLeq(a: string, b: string) {
    a == [] || (b != [] && (a[0] < b[0] || (a[0] == b[0] && TextLeq(a[1..], b[1..]))))
  }

  lemma {:induction false} TextTotal(a: string, b: string)
    ensures TextLeq(a, b) || TextLeq(b, a)
    ensures TextLeq(a, b) && TextLeq(b, a) ==> a == b
  {
    if a != [] && b != [] {
      TextTotal(a[1..], b[1..]);
      assert a == [a[0]] + a[1..] && b == [b[0]] + b[1..];
    }
  }

  lemma {:induction false} TextTransitive(a: string, b: string, c: string)
    requires TextLeq(a, b) && TextLeq(b, c)
    ensures TextLeq(a, c)
  {
    if a != [] && b != [] && c != [] && a[0] == b[0] == c[0] { TextTransitive(a[1..], b[1..], c[1..]); }
  }

  /** `_member_key`: device identity, then target, then interface identity. */
  predicate KeyLeq(m: Member, n: Member) {
    if m.id != n.id then TextLeq(m.id, n.id)
    else if m.target != n.target then TextLeq(m.target, n.target)
    else TextLeq(m.interfaceId, n.interfaceId)
  }

  function ByKey(): (Member, Member) -> bool { (m: Member, n: Member) => KeyLeq(m, n) }

  lemma KeyTransitive(a: Member, b: Member, c: Member)
    requires KeyLeq(a, b) && KeyLeq(b, c)
    ensures KeyLeq(a, c)
  {
    if a.id != c.id {
      if a.id == b.id || b.id == c.id {
      } else {
        TextTransitive(a.id, b.id, c.id);
      }
    } else if a.id != b.id {
      TextTotal(a.id, b.id);
    } else if a.target != c.target {
      if a.target != b.target && b.target != c.target { TextTransitive(a.target, b.target, c.target); }
    } else if a.target != b.target {
      TextTotal(a.target, b.target);
    } else {
      TextTransitive(a.interfaceId, b.interfaceId, c.interfaceId);
    }
  }

  lemma KeyIsPreorder()
    ensures TotalPreorder(ByKey())
  {
    forall a: Member, b: Member ensures ByKey()(a, b) || ByKey()(b, a) {
      TextTotal(a.id, b.id);
      TextTotal(a.target, b.target);
      TextTotal(a.interfaceId, b.interfaceId);
    }
    forall a: Member, b: Member, c: Member | ByKey()(a, b) && ByKey()(b, c) ensures ByKey()(a, c) {
      KeyTransitive(a, b, c);
    }
  }

  lemma SameKey(m: Member, n: Member)
    requires KeyLeq(m, n) && KeyLeq(n, m)
    ensures m.id == n.id
  {
    TextTotal(m.id, n.id);
  }

  // ---------------------------------------------------------------- the computation

  function Ids(ms: seq<Member>): (ids: seq<string>)
    ensures |ids| == |ms| && forall i | 0 <= i < |ms| :: ids[i] == ms[i].id
  {
    seq(|ms|, i requires 0 <= i < |ms| => ms[i].id)
  }

  function IdWaves(waves: seq<seq<Member>>): (r: seq<seq<string>>)
    ensures |r| == |waves| && forall i | 0 <= i < |waves| :: r[i] == Ids(waves[i])
  {
    seq(|waves|, i requires 0 <= i < |waves| => Ids(waves[i]))
  }

  function Deployable(ms: seq<Member>): (ds: seq<Member>)
    ensures forall m :: m in ds <==> m in ms && m.Deployable()
  {
    if ms == [] then []
    else
      var n := |ms| - 1;
      assert ms == ms[..n] + [ms[n]];
      if ms[n].Deployable() then Deployable(ms[..n]) + [ms[n]] else Deployable(ms[..n])
  }

  predicate Represented(ds: seq<Member>, p: Platform) { exists i | 0 <= i < |ds| :: ds[i].platform == p }

  /** `min` with the key, among the members of one platform. */
  function Canary(ds: seq<Member>, p: Platform): (m: Member)
    requires Represented(ds, p)
    ensures m in ds && m.platform == p
  {
    var n := |ds| - 1;
    if !Represented(ds[..n], p) then ds[n]
    else
      var c := Canary(ds[..n], p);
      if ds[n].platform == p && !KeyLeq(c, ds[n]) then ds[n] else c
  }

  function Canaries(ds: seq<Member>): seq<Member> {
    (if Represented(ds, CiscoIosxe) then [Canary(ds, CiscoIosxe)] else [])
    + (if Represented(ds, Junos) then [Canary(ds, Junos)] else [])
  }

  /** The deployable members whose identity is not a canary's. */
  function Others(ds: seq<Member>, canaries: seq<string>): (os: seq<Member>)
    ensures forall m :: m in os <==> m in ds && m.id !in canaries
  {
    if ds == [] then []
    else
      var n := |ds| - 1;
      assert ds == ds[..n] + [ds[n]];
      if ds[n].id !in canaries then Others(ds[..n], canaries) + [ds[n]] else Others(ds[..n], canaries)
  }

  function Remaining(ds: seq<Member>): seq<Member> {
    Sort(ByKey(), Others(ds, Ids(Canaries(ds))))
  }

  function Chunks<T>(s: seq<T>, size: nat): seq<seq<T>>
    requires size >= 1
  {
    if s == [] then [] else if |s| <= size then [s] else [s[..size]] + Chunks(s[size..], size)
  }

  // ---------------------------------------------------------------- what the cohorts must be

  ghost predicate DistinctIds(ms: seq<Member>) {
    forall i, j | 0 <= i < j < |ms| :: ms[i].id != ms[j].id
  }

  ghost predicate LeastOfPlatform(ds: seq<Member>, c: Member) {
    c in ds && forall m | m in ds && m.platform == c.platform :: KeyLeq(c, m)
  }

  /** Every wave but the last is exactly full, and the last is neither empty nor overfull. */
  ghost predicate FullWaves<T>(waves: seq<seq<T>>, size: nat) {
    forall i | 0 <= i < |waves| :: 1 <= |waves[i]| <= size && (i < |waves| - 1 ==> |waves[i]| == size)
  }

  /** One least-key canary for each platform that has a deployable member, in platform order. */
  ghost predicate OneCanaryEach(ds: seq<Member>, canaries: seq<Member>) {
    && (forall c | c in canaries :: LeastOfPlatform(ds, c))
    && (forall p: Platform :: Represented(ds, p) ==> Represented(canaries, p))
    && (forall i, j | 0 <= i < j < |canaries| :: canaries[i].platform == CiscoIosxe && canaries[j].platform == Junos)
  }

  ghost predicate InKeyOrder(ms: seq<Member>) { SortedBy(ByKey(), ms) }

  /** Canaries and waves together hold every deployable member exactly once, and nobody else. */
  ghost predicate CoversOnce(ds: seq<Member>, cohorts: seq<Member>) {
    Distinct(cohorts) && forall m :: m in cohorts <==> m in ds
  }

  ghost predicate Cohorts(ds: seq<Member>, canaries: seq<Member>, waves: seq<seq<Member>>, size: nat) {
    && OneCanaryEach(ds, canaries)
    && InKeyOrder(Flatten(waves))
    && FullWaves(waves, size)
    && CoversOnce(ds, canaries + Flatten(waves))
  }

  lemma {:induction false} CanaryIsLeast(ds: seq<Member>, p: Platform)
    requires Represented(ds, p)
    ensures LeastOfPlatform(ds, Canary(ds, p))
  {
    KeyIsPreorder();
    var n := |ds| - 1;
    assert ds == ds[..n] + [ds[n]];
    if Represented(ds[..n], p) {
      CanaryIsLeast(ds[..n], p);
      forall m | m in ds && m.platform == p ensures KeyLeq(Canary(ds, p), m) {
        var c := Canary(ds[..n], p);
        assert ByKey()(c, ds[n]) || ByKey()(ds[n], c);
        if m in ds[..n] && Canary(ds, p) == ds[n] { KeyTransitive(ds[n], c, m); }
        if m == ds[n] { assert ByKey()(m, m); }
      }
    } else {
      forall i | 0 <= i < n ensures ds[i].platform != p { assert ds[..n][i] == ds[i]; }
      assert ByKey()(ds[n], ds[n]);
    }
  }

  lemma {:induction false} ChunksFit<T>(s: seq<T>, size: nat)
    requires size >= 1
    ensures Flatten(Chunks(s, size)) == s && FullWaves(Chunks(s, size), size)
  {
    if |s| > size {
      ChunksFit(s[size..], size);
      var rest := Chunks(s[size..], size);
      assert s == s[..size] + s[size..];
      forall i | 0 <= i < |[s[..size]] + rest|
        ensures var w := ([s[..size]] + rest)[i]; 1 <= |w| <= size && (i < |rest| ==> |w| == size)
      {
        if i > 0 { assert ([s[..size]] + rest)[i] == rest[i - 1]; }
      }
    } else if s != [] {
      assert Flatten([s]) == s + Flatten([]);
    }
  }

  lemma FirstWave<T>(waves: seq<seq<T>>, size: nat)
    requires size >= 1 && FullWaves(waves, size) && |waves| > 1
    ensures FullWaves(waves[1..], size)
    ensures |Flatten(waves)| > size
    ensures Flatten(waves)[..size] == waves[0] && Flatten(waves)[size..] == Flatten(waves[1..])
  {
    var rest := waves[1..];
    forall i | 0 <= i < |rest| ensures 1 <= |rest[i]| <= size && (i < |rest| - 1 ==> |rest[i]| == size) {
      assert rest[i] == waves[i + 1];
    }
    assert |rest[0]| >= 1 && Flatten(rest) == rest[0] + Flatten(rest[1..]);
  }

  /** There is only one way to cut a list into full waves. */
  lemma {:induction false} ChunksForced<T>(waves: seq<seq<T>>, size: nat)
    requires size >= 1 && FullWaves(waves, size)
    ensures Chunks(Flatten(waves), size) == waves
  {
    if |waves| == 1 {
      assert Flatten(waves) == waves[0];
      assert 1 <= |waves[0]| <= size;
      assert waves == [waves[0]];
    } else if waves != [] {
      FirstWave(waves, size);
      ChunksForced(waves[1..], size);
      assert waves == [waves[0]] + waves[1..];
    }
  }

  // ---------------------------------------------------------------- the plan meets the specification

  lemma SameIdSameMember(ms: seq<Member>, m: Member, n: Member)
    requires DistinctIds(ms) && m in ms && n in ms && m.id == n.id
    ensures m == n
  {
    var i :| 0 <= i < |ms| && ms[i] == m;
    var j :| 0 <= j < |ms| && ms[j] == n;
    assert i == j;
  }

  lemma DistinctFromIds(ms: seq<Member>)
    requires DistinctIds(ms)
    ensures Distinct(ms)
  {
    forall i, j | 0 <= i < j < |ms| ensures ms[i] != ms[j] { assert ms[i].id != ms[j].id; }
  }

  lemma {:induction false} OthersDistinct(ds: seq<Member>, canaries: seq<string>)
    requires Distinct(ds)
    ensures Distinct(Others(ds, canaries))
  {
    if ds != [] {
      var n := |ds| - 1;
      assert ds == ds[..n] + [ds[n]];
      OneMoreDistinct(ds[..n], ds[n]);
      OthersDistinct(ds[..n], canaries);
      OneMoreDistinct(Others(ds[..n], canaries), ds[n]);
    }
  }

  lemma DistinctMultiset<T>(s: seq<T>, t: seq<T>)
    requires Distinct(s) && multiset(s) == multiset(t)
    ensures Distinct(t)
  {
    SameMembers(s, t);
    assert Elements(s) == Elements(t);
    ElementCount(s);
    ElementCount(t);
  }

  lemma DistinctJoin<T>(s: seq<T>, t: seq<T>)
    ensures Distinct(s + t) <==> Distinct(s) && Distinct(t) && forall x | x in s :: x !in t
  {
    var st := s + t;
    if Distinct(st) {
      forall i, j | 0 <= i < j < |s| ensures s[i] != s[j] { assert st[i] != st[j]; }
      forall i, j | 0 <= i < j < |t| ensures t[i] != t[j] { assert st[|s| + i] != st[|s| + j]; }
      forall i, j | 0 <= i < |s| && 0 <= j < |t| ensures s[i] != t[j] { assert st[i] != st[|s| + j]; }
    } else {
      var i, j :| 0 <= i < j < |st| && st[i] == st[j];
      if i < |s| <= j { assert s[i] in s && t[j - |s|] in t; }
      if |s| <= i { assert t[i - |s|] == t[j - |s|]; }
    }
  }

  lemma RemainingMembers(ds: seq<Member>)
    requires DistinctIds(ds)
    ensures InKeyOrder(Remaining(ds)) && Distinct(Remaining(ds))
    ensures forall m :: m in Remaining(ds) <==> m in ds && m !in Canaries(ds)
  {
    KeyIsPreorder();
    var others := Others(ds, Ids(Canaries(ds)));
    SortOrders(ByKey(), others);
    DistinctFromIds(ds);
    OthersDistinct(ds, Ids(Canaries(ds)));
    DistinctMultiset(others, Remaining(ds));
    SameMembers(others, Remaining(ds));
    forall m ensures m in others <==> m in ds && m !in Canaries(ds) { CanaryId(ds, m); }
  }

  lemma CanaryId(ds: seq<Member>, m: Member)
    requires DistinctIds(ds)
    ensures m in ds ==> (m.id in Ids(Canaries(ds)) <==> m in Canaries(ds))
  {
    if m in ds && m.id in Ids(Canaries(ds)) {
      var i :| 0 <= i < |Canaries(ds)| && Ids(Canaries(ds))[i] == m.id;
      SameIdSameMember(ds, m, Canaries(ds)[i]);
    }
    if m in Canaries(ds) {
      var i :| 0 <= i < |Canaries(ds)| && Canaries(ds)[i] == m;
      assert Ids(Canaries(ds))[i] == m.id;
    }
  }

  lemma CanariesAreRight(ds: seq<Member>)
    ensures OneCanaryEach(ds, Canaries(ds)) && Distinct(Canaries(ds)) && forall c | c in Canaries(ds) :: c in ds
  {
    forall p: Platform | Represented(ds, p) ensures LeastOfPlatform(ds, Canary(ds, p)) && Represented(Canaries(ds), p) {
      CanaryIsLeast(ds, p);
      match p {
        case CiscoIosxe => assert Canaries(ds)[0].platform == p;
        case Junos => assert Canaries(ds)[|Canaries(ds)| - 1].platform == p;
      }
    }
  }

  /** The computed cohorts meet the specification, for every fleet of distinct devices and every wave size. */
  lemma PlanMeetsSpecification(ds: seq<Member>, size: nat)
    requires DistinctIds(ds) && size >= 1
    ensures Cohorts(ds, Canaries(ds), Chunks(Remaining(ds), size), size)
  {
    ChunksFit(Remaining(ds), size);
    CanariesAreRight(ds);
    RemainingMembers(ds);
    DistinctJoin(Canaries(ds), Remaining(ds));
  }

  lemma LeastIsUnique(ds: seq<Member>, c: Member, d: Member)
    requires DistinctIds(ds) && LeastOfPlatform(ds, c) && LeastOfPlatform(ds, d) && c.platform == d.platform
    ensures c == d
  {
    SameKey(c, d);
    SameIdSameMember(ds, c, d);
  }

  lemma CanaryForced(ds: seq<Member>, canaries: seq<Member>, c: Member)
    requires DistinctIds(ds) && OneCanaryEach(ds, canaries) && c in canaries
    ensures Represented(ds, c.platform) && c == Canary(ds, c.platform)
  {
    assert LeastOfPlatform(ds, c);
    var i :| 0 <= i < |ds| && ds[i] == c;
    CanaryIsLeast(ds, c.platform);
    LeastIsUnique(ds, c, Canary(ds, c.platform));
  }

  lemma PlatformOrder(ds: seq<Member>, canaries: seq<Member>, i: nat, j: nat)
    requires OneCanaryEach(ds, canaries) && i < j < |canaries|
    ensures canaries[i].platform == CiscoIosxe && canaries[j].platform == Junos
  {}

  lemma CanariesForced(ds: seq<Member>, canaries: seq<Member>)
    requires DistinctIds(ds) && OneCanaryEach(ds, canaries)
    ensures canaries == Canaries(ds)
  {
    if |canaries| > 2 {
      PlatformOrder(ds, canaries, 0, 1);
      PlatformOrder(ds, canaries, 1, 2);
    }
    if |canaries| == 2 { PlatformOrder(ds, canaries, 0, 1); }
    forall i | 0 <= i < |canaries|
      ensures Represented(ds, canaries[i].platform) && canaries[i] == Canary(ds, canaries[i].platform)
    {
      CanaryForced(ds, canaries, canaries[i]);
    }
    forall p: Platform ensures Represented(canaries, p) <==> Represented(ds, p) {
      if Represented(canaries, p) {
        var i :| 0 <= i < |canaries| && canaries[i].platform == p;
        assert Represented(ds, canaries[i].platform);
      }
    }
    var c, j := Represented(ds, CiscoIosxe), Represented(ds, Junos);
    assert c <==> exists i | 0 <= i < |canaries| :: canaries[i].platform == CiscoIosxe;
    if |canaries| == 1 {
      assert canaries == [Canary(ds, canaries[0].platform)];
      assert c <==> canaries[0].platform == CiscoIosxe;
      assert j <==> canaries[0].platform == Junos;
    } else if |canaries| == 2 {
      assert canaries == [Canary(ds, CiscoIosxe), Canary(ds, Junos)];
    } else {
      assert canaries == [];
    }
  }

  lemma NoTiesByKey(ms: seq<Member>)
    requires DistinctIds(ms)
    ensures NoTies(ByKey(), ms)
  {
    forall m, n | m in ms && n in ms && ByKey()(m, n) && ByKey()(n, m) ensures m == n {
      SameKey(m, n);
      SameIdSameMember(ms, m, n);
    }
  }

  /** And they are the only cohorts that meet it: nothing about a plan is left to choice. */
  lemma CohortsAreForced(ds: seq<Member>, canaries: seq<Member>, waves: seq<seq<Member>>, size: nat)
    requires DistinctIds(ds) && size >= 1 && Cohorts(ds, canaries, waves, size)
    ensures canaries == Canaries(ds) && waves == Chunks(Remaining(ds), size)
  {
    CanariesForced(ds, canaries);
    RemainingMembers(ds);
    var rest := Flatten(waves);
    DistinctJoin(canaries, rest);
    forall m ensures m in rest <==> m in Remaining(ds) { assert m in canaries + rest <==> m in ds; }
    SameSetSameMultiset(rest, Remaining(ds));
    NoTiesByKey(ds);
    assert NoTies(ByKey(), rest);
    OneArrangement(ByKey(), rest, Remaining(ds));
    ChunksForced(waves, size);
  }
}
