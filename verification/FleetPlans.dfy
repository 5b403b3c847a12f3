/** Planning a fleet from its inventory listing, the plan's own validator, and the checks against a fresh selection. */
module FleetPlans {
  import opened Sequences
  import opened Fleet
  import opened FleetValidator

  datatype FleetPlan = FleetPlan(
    members: seq<Member>, canaries: seq<string>, waves: seq<seq<string>>, waveSize: nat, desired: string)

  datatype FleetError = SelectionFailed | MemberRejected | PlanInvalid

  datatype Planned = Planned(members: seq<Member>, plan: Option<FleetPlan>)

  function Targets(ms: seq<Member>): seq<string> { seq(|ms|, i requires 0 <= i < |ms| => ms[i].target) }

  function Interfaces(ms: seq<Member>): seq<string> { seq(|ms|, i requires 0 <= i < |ms| => ms[i].interfaceId) }

  function PlanOf(ms: seq<Member>, size: nat, desired: string): FleetPlan
    requires size >= 1
  {
    var frozen := Sort(ByKey(), ms);
    var ds := Deployable(frozen);
    FleetPlan(frozen, Ids(Canaries(ds)), IdWaves(Chunks(Remaining(ds), size)), size, desired)
  }

  /** The three identities that must each be unique across a fleet. */
  ghost predicate Unique(ms: seq<Member>) {
    Distinct(Targets(ms)) && Distinct(Ids(ms)) && Distinct(Interfaces(ms))
  }

  ghost predicate ValidMembers(ms: seq<Member>) {
    ms != [] && Unique(ms) && ms == Sort(ByKey(), ms)
  }

  /** `exact_membership_and_cohorts`, over the facts this model keeps of a member. */
  ghost predicate ValidPlan(p: FleetPlan) {
    ValidMembers(p.members) && ValidCohorts(p.members, p.canaries, p.waves, p.waveSize)
  }

  // ---------------------------------------------------------------- the validator accepts what is planned

  lemma IdsDistinct(ms: seq<Member>)
    ensures Distinct(Ids(ms)) <==> DistinctIds(ms)
  {
    if Distinct(Ids(ms)) {
      forall i, j | 0 <= i < j < |ms| ensures ms[i].id != ms[j].id { assert Ids(ms)[i] != Ids(ms)[j]; }
    }
  }

  lemma IdsJoin(a: seq<Member>, b: seq<Member>)
    ensures Ids(a + b) == Ids(a) + Ids(b)
  {}

  lemma {:induction false} IdsFlatten(waves: seq<seq<Member>>)
    ensures Flatten(IdWaves(waves)) == Ids(Flatten(waves))
  {
    if waves != [] {
      IdsFlatten(waves[1..]);
      assert IdWaves(waves)[1..] == IdWaves(waves[1..]);
      IdsJoin(waves[0], Flatten(waves[1..]));
    }
  }

  lemma OneMoreId(ms: seq<Member>, m: Member)
    requires DistinctIds(ms) && forall x | x in ms :: x.id != m.id
    ensures DistinctIds(ms + [m])
  {}

  lemma {:induction false} DeployableDistinct(ms: seq<Member>)
    requires DistinctIds(ms)
    ensures DistinctIds(Deployable(ms))
  {
    if ms != [] {
      var n := |ms| - 1;
      DeployableDistinct(ms[..n]);
      forall m | m in Deployable(ms[..n]) ensures m.id != ms[n].id {
        var i :| 0 <= i < n && ms[..n][i] == m;
        assert ms[i].id != ms[n].id;
      }
      OneMoreId(Deployable(ms[..n]), ms[n]);
    }
  }

  lemma SubsetDistinctIds(ms: seq<Member>, cs: seq<Member>)
    requires DistinctIds(ms) && Distinct(cs) && forall m | m in cs :: m in ms
    ensures DistinctIds(cs)
  {
    forall i, j | 0 <= i < j < |cs| ensures cs[i].id != cs[j].id {
      if cs[i].id == cs[j].id { SameIdSameMember(ms, cs[i], cs[j]); }
    }
  }

  lemma IdsOfSameMembers(a: seq<Member>, b: seq<Member>)
    requires forall m :: m in a <==> m in b
    ensures forall id :: id in Ids(a) <==> id in Ids(b)
  {
    forall id ensures id in Ids(a) <==> id in Ids(b) {
      if id in Ids(a) {
        var i :| 0 <= i < |a| && Ids(a)[i] == id;
        assert a[i] in b;
        var j :| 0 <= j < |b| && b[j] == a[i];
        assert Ids(b)[j] == id;
      }
      if id in Ids(b) {
        var i :| 0 <= i < |b| && Ids(b)[i] == id;
        assert b[i] in a;
        var j :| 0 <= j < |a| && a[j] == b[i];
        assert Ids(a)[j] == id;
      }
    }
  }

  /** The identities in the cohorts are the deployable identities, each once. */
  lemma CohortIds(ms: seq<Member>, size: nat)
    requires DistinctIds(ms) && DistinctIds(Deployable(ms)) && size >= 1
    ensures var ds := Deployable(ms);
            var cohorts := Ids(Canaries(ds)) + Flatten(IdWaves(Chunks(Remaining(ds), size)));
            Distinct(cohorts) && Elements(cohorts) == DeployableIds(ms)
  {
    var ds := Deployable(ms);
    var waves := Chunks(Remaining(ds), size);
    var cohorts := Canaries(ds) + Flatten(waves);
    PlanMeetsSpecification(ds, size);
    IdsFlatten(waves);
    IdsJoin(Canaries(ds), Flatten(waves));
    SubsetDistinctIds(ds, cohorts);
    IdsDistinct(cohorts);
    IdsOfSameMembers(cohorts, ds);
    IdsAreDeployable(ms);
  }

  lemma IdsAreDeployable(ms: seq<Member>)
    ensures forall id :: id in Ids(Deployable(ms)) <==> id in DeployableIds(ms)
  {
    var ds := Deployable(ms);
    forall id ensures id in Ids(ds) <==> id in DeployableIds(ms) {
      if id in Ids(ds) {
        var i :| 0 <= i < |ds| && Ids(ds)[i] == id;
        assert ds[i] in ms;
      }
      if id in DeployableIds(ms) {
        var m :| m in ms && m.Deployable() && m.id == id;
        var i :| 0 <= i < |ds| && ds[i] == m;
        assert Ids(ds)[i] == id;
      }
    }
  }

  /** One canary for each platform with a deployable member, and no platform twice. */
  lemma OnePerPlatform(byId: map<string, Member>, ids: set<string>)
    ensures var canaries := ExpectedCanaries(byId, ids);
            && |canaries| == |PlatformsOf(byId, ids)|
            && forall p: Platform :: p in PlatformsOf(byId, ids) <==> p in PlatformsOf(byId, Elements(canaries))
  {
    var ps, canaries := InOrder(PlatformsOf(byId, ids)), ExpectedCanaries(byId, ids);
    ElementCount(ps);
    assert Elements(ps) == PlatformsOf(byId, ids);
    forall i | 0 <= i < |ps| ensures canaries[i] in OfPlatform(byId, ids, ps[i]) {}
    forall p: Platform | p in PlatformsOf(byId, ids) ensures p in PlatformsOf(byId, Elements(canaries)) {
      var i :| 0 <= i < |ps| && ps[i] == p;
      assert canaries[i] in Elements(canaries);
    }
    forall p: Platform | p in PlatformsOf(byId, Elements(canaries)) ensures p in PlatformsOf(byId, ids) {
      var i :| 0 <= i < |canaries| && byId[canaries[i]].platform == p;
      assert ps[i] in ps;
    }
  }

  ghost predicate DistinctBy(f: Member -> string, ms: seq<Member>) {
    forall i, j | 0 <= i < j < |ms| :: f(ms[i]) != f(ms[j])
  }

  lemma DistinctByInAnyOrder(f: Member -> string, a: seq<Member>, b: seq<Member>)
    requires multiset(a) == multiset(b) && DistinctBy(f, a)
    ensures DistinctBy(f, b)
  {
    forall i, j | 0 <= i < j < |a| ensures a[i] != a[j] { assert f(a[i]) != f(a[j]); }
    DistinctMultiset(a, b);
    SameMembers(a, b);
    forall i, j | 0 <= i < j < |b| ensures f(b[i]) != f(b[j]) {
      assert b[i] in a && b[j] in a;
      var k :| 0 <= k < |a| && a[k] == b[i];
      var l :| 0 <= l < |a| && a[l] == b[j];
    }
  }

  lemma UniqueBy(ms: seq<Member>)
    ensures Unique(ms) <==>
              && DistinctBy((m: Member) => m.target, ms)
              && DistinctBy((m: Member) => m.id, ms)
              && DistinctBy((m: Member) => m.interfaceId, ms)
  {
    assert forall i | 0 <= i < |ms| :: Targets(ms)[i] == ms[i].target && Interfaces(ms)[i] == ms[i].interfaceId;
    if Unique(ms) {
      forall i, j | 0 <= i < j < |ms|
        ensures ms[i].target != ms[j].target && ms[i].id != ms[j].id && ms[i].interfaceId != ms[j].interfaceId
      {
        assert Targets(ms)[i] != Targets(ms)[j] && Ids(ms)[i] != Ids(ms)[j] && Interfaces(ms)[i] != Interfaces(ms)[j];
      }
    }
  }

  /** Uniqueness does not depend on the order of listing. */
  lemma UniqueInAnyOrder(a: seq<Member>, b: seq<Member>)
    requires multiset(a) == multiset(b) && Unique(a)
    ensures Unique(b)
  {
    UniqueBy(a);
    UniqueBy(b);
    DistinctByInAnyOrder((m: Member) => m.target, a, b);
    DistinctByInAnyOrder((m: Member) => m.id, a, b);
    DistinctByInAnyOrder((m: Member) => m.interfaceId, a, b);
  }

  lemma SortedAgain(ms: seq<Member>)
    requires DistinctIds(ms)
    ensures Sort(ByKey(), Sort(ByKey(), ms)) == Sort(ByKey(), ms)
  {
    KeyIsPreorder();
    var frozen := Sort(ByKey(), ms);
    SortOrders(ByKey(), ms);
    DistinctFromIds(ms);
    SameMembers(ms, frozen);
    DistinctMultiset(ms, frozen);
    SubsetDistinctIds(ms, frozen);
    NoTiesByKey(frozen);
    SortIsUnique(ByKey(), frozen, frozen);
  }

  lemma WavesNotEmpty(ds: seq<Member>, size: nat)
    requires size >= 1
    ensures var waves := IdWaves(Chunks(Remaining(ds), size));
            forall i | 0 <= i < |waves| :: waves[i] != [] && |waves[i]| <= size
  {
    ChunksFit(Remaining(ds), size);
  }

  lemma CohortsAreValid(ms: seq<Member>, size: nat)
    requires DistinctIds(ms) && Deployable(ms) != [] && size >= 1
    ensures var ds := Deployable(ms);
            ValidCohorts(ms, Ids(Canaries(ds)), IdWaves(Chunks(Remaining(ds), size)), size)
  {
    var ds := Deployable(ms);
    DeployableDistinct(ms);
    CohortIds(ms, size);
    WavesNotEmpty(ds, size);
    SameCohorts(ms, size);
    OnePerPlatform(ById(ms), DeployableIds(ms));
    assert Represented(ds, ds[0].platform);
    assert ds[0].id in DeployableIds(ms);
    forall id | id in DeployableIds(ms) ensures id in ById(ms) { DeployableById(ms, id); }
  }

  lemma MembersAreValid(ms: seq<Member>)
    requires Unique(ms) && ms != []
    ensures ValidMembers(Sort(ByKey(), ms)) && DistinctIds(Sort(ByKey(), ms))
  {
    var frozen := Sort(ByKey(), ms);
    UniqueInAnyOrder(ms, frozen);
    IdsDistinct(ms);
    IdsDistinct(frozen);
    SortedAgain(ms);
    SameMembers(ms, frozen);
  }

  lemma UniquePlanIsValid(ms: seq<Member>, size: nat, desired: string)
    requires size >= 1 && Unique(ms) && Deployable(Sort(ByKey(), ms)) != []
    ensures ValidPlan(PlanOf(ms, size, desired))
  {
    var frozen := Sort(ByKey(), ms);
    SameMembers(ms, frozen);
    MembersAreValid(ms);
    CohortsAreValid(frozen, size);
  }

  /**
   * A plan passes its own validator, which recomputes the cohorts over sets of identities, exactly when all
   * three identities are unique and something is deployable.
   */
  lemma ValidatorAgrees(ms: seq<Member>, size: nat, desired: string)
    requires size >= 1
    ensures ValidPlan(PlanOf(ms, size, desired)) <==> Unique(ms) && Deployable(Sort(ByKey(), ms)) != []
  {
    var frozen := Sort(ByKey(), ms);
    if ValidPlan(PlanOf(ms, size, desired)) {
      UniqueInAnyOrder(frozen, ms);
      IdsDistinct(frozen);
      var id :| id in DeployableIds(frozen);
      DeployableById(frozen, id);
    }
    if Unique(ms) && Deployable(Sort(ByKey(), ms)) != [] { UniquePlanIsValid(ms, size, desired); }
  }

  /**
   * What is planned: the members as listed, in key order, canaries and waves that meet the specification at the
   * size asked for, and the size and description themselves.
   */
  lemma PlanIsAsAsked(ms: seq<Member>, size: nat, desired: string)
    requires size >= 1 && DistinctIds(ms)
    ensures var p := PlanOf(ms, size, desired);
            && multiset(p.members) == multiset(ms) && InKeyOrder(p.members)
            && p.waveSize == size && p.desired == desired
            && exists canaries, waves ::
                 && p.canaries == Ids(canaries) && p.waves == IdWaves(waves)
                 && Cohorts(Deployable(p.members), canaries, waves, size)
  {
    var frozen := Sort(ByKey(), ms);
    KeyIsPreorder();
    SortOrders(ByKey(), ms);
    SameMembers(ms, frozen);
    DistinctFromIds(ms);
    DistinctMultiset(ms, frozen);
    SubsetDistinctIds(ms, frozen);
    DeployableDistinct(frozen);
    PlanMeetsSpecification(Deployable(frozen), size);
  }

  /** The same fleet listed in another order gives the same plan. */
  lemma ListingDoesNotMatter(a: seq<Member>, b: seq<Member>, size: nat, desired: string)
    requires multiset(a) == multiset(b) && DistinctIds(a) && size >= 1
    ensures PlanOf(a, size, desired) == PlanOf(b, size, desired)
  {
    KeyIsPreorder();
    var frozen := Sort(ByKey(), b);
    SortOrders(ByKey(), b);
    DistinctFromIds(a);
    DistinctMultiset(a, frozen);
    SameMembers(a, frozen);
    SubsetDistinctIds(a, frozen);
    NoTiesByKey(frozen);
    SortIsUnique(ByKey(), a, frozen);
  }

  function Values(listed: seq<Option<Member>>): (ms: seq<Member>)
    requires forall i | 0 <= i < |listed| :: listed[i].Some?
    ensures |ms| == |listed| && forall i | 0 <= i < |listed| :: ms[i] == listed[i].value
  {
    seq(|listed|, i requires 0 <= i < |listed| => listed[i].value)
  }

  predicate AllRead(listed: seq<Option<Member>>) { forall i | 0 <= i < |listed| :: listed[i].Some? }

  /**
   * `plan_fleet`. `listed` is what resolving the selector and freezing each device gave. One failing
   * device fails the whole fleet; a fleet with nothing to deploy has no plan; any other gets the one
   * plan, unless an identity repeats.
   */
  method PlanFleet(listed: Option<seq<Option<Member>>>, size: nat, desired: string)
    returns (res: Result<Planned, FleetError>)
    requires size >= 1
    ensures listed == None || !AllRead(listed.value) ==> res.Err?
    ensures listed.Some? && AllRead(listed.value) ==>
              var ms := Values(listed.value);
              if Deployable(Sort(ByKey(), ms)) == [] then res == Ok(Planned(Sort(ByKey(), ms), None))
              else if Unique(ms) then res == Ok(Planned(Sort(ByKey(), ms), Some(PlanOf(ms, size, desired))))
              else res == Err(PlanInvalid)
  {
    if listed == None { return Err(SelectionFailed); }
    var members: seq<Member> := [];
    for i := 0 to |listed.value|
      invariant |members| == i && forall j | 0 <= j < i :: listed.value[j] == Some(members[j])
    {
      if listed.value[i] == None { return Err(MemberRejected); }
      members := members + [listed.value[i].value];
    }
    assert members == Values(listed.value);
    var frozen := Sort(ByKey(), members);
    if Deployable(frozen) == [] { return Ok(Planned(frozen, None)); }
    var plan := PlanOf(members, size, desired);
    var unique := IsUnique(members);
    ValidatorAgrees(members, size, desired);
    if !unique { return Err(PlanInvalid); }
    return Ok(Planned(frozen, Some(plan)));
  }

  /** `len(x) != len(set(x))` for each of the three identities. */
  method IsUnique(ms: seq<Member>) returns (unique: bool)
    ensures unique <==> Unique(ms)
  {
    ElementCount(Targets(ms));
    ElementCount(Ids(ms));
    ElementCount(Interfaces(ms));
    unique := |Elements(Targets(ms))| == |ms| && |Elements(Ids(ms))| == |ms| && |Elements(Interfaces(ms))| == |ms|;
  }
}
