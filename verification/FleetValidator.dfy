/**
 * What the plan's validator expects of the cohorts. It works on sets of identities and looks members up
 * by identity; the proof here is that it arrives at what the planner computed on the members themselves.
 */
module FleetValidator {
  import opened Sequences
  import opened Fleet

  /** `by_id`: of two members with one identity the later stays. */
  function ById(ms: seq<Member>): (byId: map<string, Member>)
    ensures forall id :: id in byId <==> id in Ids(ms)
    ensures forall id | id in byId :: byId[id] in ms && byId[id].id == id
  {
    if ms == [] then map[]
    else
      var n := |ms| - 1;
      assert ms == ms[..n] + [ms[n]] && Ids(ms) == Ids(ms[..n]) + [ms[n].id];
      ById(ms[..n])[ms[n].id := ms[n]]
  }

  function DeployableIds(ms: seq<Member>): set<string> { set m | m in ms && m.Deployable() :: m.id }

  /** A set in the order in which it happens to be iterated. */
  ghost function Listed<T(!new)>(s: set<T>): (r: seq<T>)
    ensures Distinct(r) && forall x :: x in r <==> x in s
  {
    if s == {} then []
    else
      var x :| x in s;
      [x] + Listed(s - {x})
  }

  /** Identities compared by the `stable_key` of their members. */
  function ByStableKey(byId: map<string, Member>): (string, string) -> bool {
    (a: string, b: string) => a in byId && b in byId && KeyLeq(byId[a], byId[b])
  }

  /** `min`: the first of the least elements. */
  function Min<T>(leq: (T, T) -> bool, s: seq<T>): (m: T)
    requires s != []
    ensures m in s
  {
    var n := |s| - 1;
    if n == 0 then s[0]
    else
      var c := Min(leq, s[..n]);
      if leq(c, s[n]) then c else s[n]
  }

  function PlatformsOf(byId: map<string, Member>, ids: set<string>): set<Platform> {
    set id | id in ids && id in byId :: byId[id].platform
  }

  function OfPlatform(byId: map<string, Member>, ids: set<string>, p: Platform): set<string> {
    set id | id in ids && id in byId && byId[id].platform == p
  }

  function InOrder(ps: set<Platform>): (r: seq<Platform>)
    ensures forall p :: p in r <==> p in ps
  {
    assert forall p: Platform | p in ps :: p == CiscoIosxe || p == Junos;
    (if CiscoIosxe in ps then [CiscoIosxe] else []) + (if Junos in ps then [Junos] else [])
  }

  ghost function ExpectedCanaries(byId: map<string, Member>, ids: set<string>): seq<string> {
    var ps := InOrder(PlatformsOf(byId, ids));
    seq(|ps|, i requires 0 <= i < |ps| => ExpectedCanary(byId, ids, ps[i]))
  }

  ghost function ExpectedCanary(byId: map<string, Member>, ids: set<string>, p: Platform): (id: string)
    requires p in PlatformsOf(byId, ids)
    ensures id in OfPlatform(byId, ids, p)
  {
    var id :| id in ids && id in byId && byId[id].platform == p;
    assert id in OfPlatform(byId, ids, p) && id in Listed(OfPlatform(byId, ids, p));
    Min(ByStableKey(byId), Listed(OfPlatform(byId, ids, p)))
  }

  ghost function ExpectedWaves(byId: map<string, Member>, ids: set<string>, canaries: seq<string>, size: nat)
    : seq<seq<string>>
    requires size >= 1
  {
    Chunks(Sort(ByStableKey(byId), Listed(ids - Elements(canaries))), size)
  }

  /** The cohort clauses of `exact_membership_and_cohorts`, in its order. */
  ghost predicate ValidCohorts(ms: seq<Member>, canaries: seq<string>, waves: seq<seq<string>>, size: nat) {
    var byId, ids, cohorts := ById(ms), DeployableIds(ms), canaries + Flatten(waves);
    && Distinct(cohorts)
    && (forall id | id in cohorts :: id in byId)
    && ids != {}
    && Elements(cohorts) == ids
    && (byId.Keys - ids) !! Elements(cohorts)
    && canaries != []
    && (forall p: Platform :: p in PlatformsOf(byId, ids) <==> p in PlatformsOf(byId, Elements(canaries)))
    && |canaries| == |PlatformsOf(byId, ids)|
    && size >= 1
    && (forall i | 0 <= i < |waves| :: waves[i] != [] && |waves[i]| <= size)
    && canaries == ExpectedCanaries(byId, ids)
    && waves == ExpectedWaves(byId, ids, canaries, size)
  }

  // ---------------------------------------------------------------- identities stand for members

  lemma LookUp(ms: seq<Member>, m: Member)
    requires DistinctIds(ms) && m in ms
    ensures m.id in ById(ms) && ById(ms)[m.id] == m
  {
    var i :| 0 <= i < |ms| && ms[i] == m;
    assert Ids(ms)[i] == m.id;
    SameIdSameMember(ms, m, ById(ms)[m.id]);
  }

  lemma {:induction false} MinIsLeast<T(!new)>(leq: (T, T) -> bool, s: seq<T>, x: T)
    requires x in s
    requires forall a, b | a in s && b in s :: leq(a, b) || leq(b, a)
    requires forall a, b, c | a in s && b in s && c in s && leq(a, b) && leq(b, c) :: leq(a, c)
    ensures leq(Min(leq, s), x)
  {
    var n := |s| - 1;
    assert s == s[..n] + [s[n]];
    if n > 0 {
      if x in s[..n] { MinIsLeast(leq, s[..n], x); }
    }
  }

  lemma StableKeyOrders(ms: seq<Member>, ids: seq<string>)
    requires forall id | id in ids :: id in ById(ms)
    ensures var leq := ByStableKey(ById(ms));
            && (forall a, b | a in ids && b in ids :: leq(a, b) || leq(b, a))
            && (forall a, b, c | a in ids && b in ids && c in ids && leq(a, b) && leq(b, c) :: leq(a, c))
  {
    var byId := ById(ms);
    var leq := ByStableKey(byId);
    KeyIsPreorder();
    forall a, b | a in ids && b in ids ensures leq(a, b) || leq(b, a) {
      assert ByKey()(byId[a], byId[b]) || ByKey()(byId[b], byId[a]);
    }
    forall a, b, c | a in ids && b in ids && c in ids && leq(a, b) && leq(b, c) ensures leq(a, c) {
      KeyTransitive(byId[a], byId[b], byId[c]);
    }
  }

  lemma DeployableById(ms: seq<Member>, id: string)
    requires DistinctIds(ms)
    ensures id in DeployableIds(ms) <==> id in ById(ms) && ById(ms)[id] in Deployable(ms)
  {
    if id in DeployableIds(ms) {
      var m :| m in ms && m.Deployable() && m.id == id;
      LookUp(ms, m);
    }
  }

  lemma SamePlatforms(ms: seq<Member>, p: Platform)
    requires DistinctIds(ms)
    ensures p in PlatformsOf(ById(ms), DeployableIds(ms)) <==> Represented(Deployable(ms), p)
  {
    var byId, ids, ds := ById(ms), DeployableIds(ms), Deployable(ms);
    if p in PlatformsOf(byId, ids) {
      var id :| id in ids && id in byId && byId[id].platform == p;
      DeployableById(ms, id);
      var i :| 0 <= i < |ds| && ds[i] == byId[id];
    }
    if Represented(ds, p) {
      var i :| 0 <= i < |ds| && ds[i].platform == p;
      LookUp(ms, ds[i]);
      assert ds[i].id in ids;
    }
  }

  /** The least identity of a platform names the member that is its canary. */
  lemma SameCanary(ms: seq<Member>, p: Platform)
    requires DistinctIds(ms) && DistinctIds(Deployable(ms)) && Represented(Deployable(ms), p)
    ensures p in PlatformsOf(ById(ms), DeployableIds(ms))
    ensures ExpectedCanary(ById(ms), DeployableIds(ms), p) == Canary(Deployable(ms), p).id
  {
    SamePlatforms(ms, p);
    var byId, ids, ds := ById(ms), DeployableIds(ms), Deployable(ms);
    var listed := Listed(OfPlatform(byId, ids, p));
    var least := ExpectedCanary(byId, ids, p);
    DeployableById(ms, least);
    var c, d := byId[least], Canary(ds, p);
    StableKeyOrders(ms, listed);
    forall m | m in ds && m.platform == p ensures KeyLeq(c, m) {
      LookUp(ms, m);
      assert m.id in OfPlatform(byId, ids, p);
      MinIsLeast(ByStableKey(byId), listed, m.id);
    }
    CanaryIsLeast(ds, p);
    LeastIsUnique(ds, c, d);
  }

  function AtMostOne(some: bool, id: string): seq<string> { if some then [id] else [] }

  lemma ExpectedInOrder(byId: map<string, Member>, ids: set<string>, cisco: string, junos: string)
    requires CiscoIosxe in PlatformsOf(byId, ids) ==> cisco == ExpectedCanary(byId, ids, CiscoIosxe)
    requires Junos in PlatformsOf(byId, ids) ==> junos == ExpectedCanary(byId, ids, Junos)
    ensures ExpectedCanaries(byId, ids) == AtMostOne(CiscoIosxe in PlatformsOf(byId, ids), cisco)
                                           + AtMostOne(Junos in PlatformsOf(byId, ids), junos)
  {}

  lemma PlannedInOrder(ds: seq<Member>, cisco: string, junos: string)
    requires Represented(ds, CiscoIosxe) ==> cisco == Canary(ds, CiscoIosxe).id
    requires Represented(ds, Junos) ==> junos == Canary(ds, Junos).id
    ensures Ids(Canaries(ds)) == AtMostOne(Represented(ds, CiscoIosxe), cisco)
                                 + AtMostOne(Represented(ds, Junos), junos)
  {}

  lemma SameCanaries(ms: seq<Member>)
    requires DistinctIds(ms) && DistinctIds(Deployable(ms))
    ensures ExpectedCanaries(ById(ms), DeployableIds(ms)) == Ids(Canaries(Deployable(ms)))
  {
    var byId, ids, ds := ById(ms), DeployableIds(ms), Deployable(ms);
    SamePlatforms(ms, CiscoIosxe);
    SamePlatforms(ms, Junos);
    var cisco, junos := [], [];
    if Represented(ds, CiscoIosxe) {
      SameCanary(ms, CiscoIosxe);
      cisco := Canary(ds, CiscoIosxe).id;
    }
    if Represented(ds, Junos) {
      SameCanary(ms, Junos);
      junos := Canary(ds, Junos).id;
    }
    ExpectedInOrder(byId, ids, cisco, junos);
    PlannedInOrder(ds, cisco, junos);
  }

  function Members(byId: map<string, Member>, ids: seq<string>): (ms: seq<Member>)
    requires forall id | id in ids :: id in byId
    ensures |ms| == |ids| && forall i | 0 <= i < |ids| :: ms[i] == byId[ids[i]]
  {
    seq(|ids|, i requires 0 <= i < |ids| => byId[ids[i]])
  }

  predicate Names(byId: map<string, Member>, m: Member) { m.id in byId && byId[m.id] == m }

  lemma FirstIdInserted(byId: map<string, Member>, m: Member, ms: seq<Member>)
    requires Names(byId, m) && ms != [] && Names(byId, ms[0])
    ensures Insert(ByStableKey(byId), m.id, Ids(ms)) ==
              if KeyLeq(m, ms[0]) then [m.id] + Ids(ms)
              else [ms[0].id] + Insert(ByStableKey(byId), m.id, Ids(ms[1..]))
  {
    assert Ids(ms)[1..] == Ids(ms[1..]);
  }

  lemma FirstMemberInserted(m: Member, ms: seq<Member>)
    requires ms != []
    ensures Ids(Insert(ByKey(), m, ms)) ==
              if KeyLeq(m, ms[0]) then [m.id] + Ids(ms) else [ms[0].id] + Ids(Insert(ByKey(), m, ms[1..]))
  {
    IdsOfFirst(m, ms);
    IdsOfFirst(ms[0], Insert(ByKey(), m, ms[1..]));
  }

  lemma IdsOfFirst(m: Member, ms: seq<Member>)
    ensures Ids([m] + ms) == [m.id] + Ids(ms)
  {}

  lemma {:induction false} InsertById(byId: map<string, Member>, m: Member, ms: seq<Member>)
    requires Names(byId, m) && forall i | 0 <= i < |ms| :: Names(byId, ms[i])
    ensures Insert(ByStableKey(byId), m.id, Ids(ms)) == Ids(Insert(ByKey(), m, ms))
  {
    if ms == [] {
      assert Ids([m]) == [m.id];
    } else {
      FirstIdInserted(byId, m, ms);
      FirstMemberInserted(m, ms);
      InsertById(byId, m, ms[1..]);
    }
  }

  /** Sorting identities by the keys of their members is sorting the members. */
  lemma {:induction false} SortById(byId: map<string, Member>, ms: seq<Member>)
    requires forall m | m in ms :: m.id in byId && byId[m.id] == m
    ensures Sort(ByStableKey(byId), Ids(ms)) == Ids(Sort(ByKey(), ms))
  {
    if ms != [] {
      var rest := Sort(ByKey(), ms[1..]);
      SameMembers(ms[1..], rest);
      assert Ids(ms)[1..] == Ids(ms[1..]);
      SortById(byId, ms[1..]);
      InsertById(byId, ms[0], rest);
    }
  }

  lemma {:induction false} ChunksOfIds(ms: seq<Member>, size: nat)
    requires size >= 1
    ensures Chunks(Ids(ms), size) == IdWaves(Chunks(ms, size))
  {
    if |ms| > size {
      ChunksOfIds(ms[size..], size);
      assert Ids(ms)[..size] == Ids(ms[..size]) && Ids(ms)[size..] == Ids(ms[size..]);
    }
  }

  lemma SameRemaining(ms: seq<Member>)
    requires DistinctIds(ms) && DistinctIds(Deployable(ms))
    ensures var left := Listed(DeployableIds(ms) - Elements(Ids(Canaries(Deployable(ms)))));
            Sort(ByStableKey(ById(ms)), left) == Ids(Remaining(Deployable(ms)))
  {
    var byId, ds := ById(ms), Deployable(ms);
    var left := Listed(DeployableIds(ms) - Elements(Ids(Canaries(ds))));
    forall id ensures id in left <==> id in byId && byId[id] in ds && id !in Ids(Canaries(ds)) {
      DeployableById(ms, id);
    }
    assert NamesOthers(byId, ds, left);
    var others := Members(byId, left);
    assert Ids(others) == left;
    OthersById(ms, left);
    KeyIsPreorder();
    RemainingMembers(ds);
    SameSetSameMultiset(others, Remaining(ds));
    NoTiesByKey(ds);
    assert NoTies(ByKey(), Remaining(ds));
    SortIsUnique(ByKey(), others, Remaining(ds));
    SortById(byId, others);
  }

  /** `left` lists the identities that name a deployable member other than a canary. */
  ghost predicate NamesOthers(byId: map<string, Member>, ds: seq<Member>, left: seq<string>) {
    forall id :: id in left <==> id in byId && byId[id] in ds && id !in Ids(Canaries(ds))
  }

  lemma LookedUp(byId: map<string, Member>, ids: seq<string>, m: Member)
    requires (forall id | id in byId :: byId[id].id == id) && forall id | id in ids :: id in byId
    ensures m in Members(byId, ids) <==> m.id in ids && m.id in byId && byId[m.id] == m
  {
    var ms := Members(byId, ids);
    if m in ms {
      var i :| 0 <= i < |ids| && ms[i] == m;
      assert ids[i] in ids;
    }
    if m.id in ids && byId[m.id] == m {
      var i :| 0 <= i < |ids| && ids[i] == m.id;
      assert ms[i] == m;
    }
  }

  lemma LookedUpOnce(byId: map<string, Member>, ids: seq<string>)
    requires (forall id | id in byId :: byId[id].id == id) && (forall id | id in ids :: id in byId) && Distinct(ids)
    ensures Distinct(Members(byId, ids))
  {
    var ms := Members(byId, ids);
    forall i, j | 0 <= i < j < |ms| ensures ms[i] != ms[j] {
      assert ids[i] in ids && ids[j] in ids;
    }
  }

  lemma OthersById(ms: seq<Member>, left: seq<string>)
    requires DistinctIds(ms) && DistinctIds(Deployable(ms)) && Distinct(left)
    requires NamesOthers(ById(ms), Deployable(ms), left)
    ensures var ds, others := Deployable(ms), Members(ById(ms), left);
            && Distinct(others)
            && (forall m :: m in others <==> m in Remaining(ds))
            && (forall m | m in others :: m.id in ById(ms) && ById(ms)[m.id] == m)
  {
    var byId, ds := ById(ms), Deployable(ms);
    RemainingMembers(ds);
    LookedUpOnce(byId, left);
    forall m ensures m in Members(byId, left) <==> m in Remaining(ds) {
      LookedUp(byId, left, m);
      CanaryId(ds, m);
      if m in ms { LookUp(ms, m); }
    }
    forall m | m in Members(byId, left) ensures m.id in byId && byId[m.id] == m { LookedUp(byId, left, m); }
  }

  /** Canaries and waves computed over identities are those computed over members. */
  lemma SameCohorts(ms: seq<Member>, size: nat)
    requires DistinctIds(ms) && DistinctIds(Deployable(ms)) && size >= 1
    ensures var byId, ids, ds := ById(ms), DeployableIds(ms), Deployable(ms);
            && ExpectedCanaries(byId, ids) == Ids(Canaries(ds))
            && ExpectedWaves(byId, ids, Ids(Canaries(ds)), size) == IdWaves(Chunks(Remaining(ds), size))
  {
    SameCanaries(ms);
    SameRemaining(ms);
    ChunksOfIds(Remaining(Deployable(ms)), size);
  }
}
