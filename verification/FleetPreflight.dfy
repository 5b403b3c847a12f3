/** Re-resolving a planned fleet: the fresh selection must pair with the frozen members, and each must still pass. */
module FleetPreflight {
  import opened Sequences
  import opened Fleet
  import opened FleetPlans

  /** The two inventory identities by which membership is compared. */
  datatype Pair = Pair(device: string, interface: string)

  function PairOf(m: Member): Pair { Pair(m.id, m.interfaceId) }

  function Pairs(ms: seq<Member>): (ps: seq<Pair>)
    ensures |ps| == |ms| && forall i | 0 <= i < |ms| :: ps[i] == PairOf(ms[i])
  {
    seq(|ms|, i requires 0 <= i < |ms| => PairOf(ms[i]))
  }

  lemma PairsDistinct(ms: seq<Member>)
    requires DistinctIds(ms)
    ensures Distinct(Pairs(ms))
  {
    forall i, j | 0 <= i < j < |ms| ensures Pairs(ms)[i] != Pairs(ms)[j] { assert ms[i].id != ms[j].id; }
  }

  /**
   * By pigeonhole, comparing the two sets and the two lengths is enough: it succeeds exactly when the
   * selection is a rearrangement of the frozen members, one to one.
   */
  lemma SameMembershipIsPairing(ms: seq<Member>, selected: seq<Pair>)
    requires DistinctIds(ms)
    ensures Elements(selected) == Elements(Pairs(ms)) && |selected| == |ms|
            <==> multiset(selected) == multiset(Pairs(ms))
    ensures multiset(selected) == multiset(Pairs(ms)) ==> Distinct(selected)
  {
    PairsDistinct(ms);
    ElementCount(Pairs(ms));
    ElementCount(selected);
    if Elements(selected) == Elements(Pairs(ms)) && |selected| == |ms| {
      assert Distinct(selected);
      forall p ensures p in selected <==> p in Pairs(ms) {
        assert p in Elements(selected) <==> p in Elements(Pairs(ms));
      }
      SameSetSameMultiset(selected, Pairs(ms));
    }
    if multiset(selected) == multiset(Pairs(ms)) {
      SameMembers(selected, Pairs(ms));
      DistinctMultiset(Pairs(ms), selected);
      assert Elements(selected) == Elements(Pairs(ms));
    }
  }

  /** The pairing itself: each frozen member is the partner of exactly one selected pair. */
  lemma EveryMemberHasOnePartner(ms: seq<Member>, selected: seq<Pair>, i: nat)
    requires DistinctIds(ms) && multiset(selected) == multiset(Pairs(ms)) && i < |ms|
    ensures exists j | 0 <= j < |selected| ::
              selected[j] == PairOf(ms[i]) && forall k | 0 <= k < |selected| && k != j :: selected[k] != PairOf(ms[i])
  {
    SameMembershipIsPairing(ms, selected);
    SameMembers(selected, Pairs(ms));
    assert Pairs(ms)[i] in selected;
    var j :| 0 <= j < |selected| && selected[j] == Pairs(ms)[i];
  }

  // ---------------------------------------------------------------- the two validations

  /** What was read from one device; None stands for a preflight error. */
  type Observation = Option<Snapshot>

  datatype Snapshot = Snapshot(description: Option<string>, hostname: string, present: bool, guarded: bool)

  datatype MemberResult = MemberResult(pair: Pair, succeeded: bool, observed: Option<string>)

  datatype FleetResult = FleetResult(succeeded: bool, members: seq<MemberResult>)

  /** A deployable member must be as its child plan found it, a compliant one must still be compliant. */
  predicate Unchanged(m: Member, seen: Observation, desired: string) {
    && seen.Some?
    && if m.child.Some? then
         && m.child.value.signed
         && seen.value.description == m.child.value.currentDescription
         && seen.value.hostname == m.child.value.hostname
         && seen.value.present && !seen.value.guarded
       else seen.value.description == Some(desired)
  }

  predicate AtDesired(m: Member, seen: Observation, desired: string) {
    seen.Some? && seen.value.description == Some(desired)
  }

  function Passes(m: Member, seen: Observation, desired: string, final: bool): bool {
    if final then AtDesired(m, seen, desired) else Unchanged(m, seen, desired)
  }

  function ResultOf(m: Member, seen: Observation, ok: bool): MemberResult {
    MemberResult(PairOf(m), ok, if seen.Some? then seen.value.description else None)
  }

  /** The results tell of the members in plan order, each with what was seen of it and whether it passed. */
  ghost predicate CheckedInOrder(ms: seq<Member>, seen: seq<Observation>, desired: string, final: bool,
                                 results: seq<MemberResult>)
  {
    && |results| == |ms| == |seen|
    && forall i | 0 <= i < |ms| ::
         && results[i].pair == Pair(ms[i].id, ms[i].interfaceId)
         && results[i].observed == (if seen[i].Some? then seen[i].value.description else None)
         && results[i].succeeded == Passes(ms[i], seen[i], desired, final)
  }

  predicate AllSucceeded(results: seq<MemberResult>) { forall i | 0 <= i < |results| :: results[i].succeeded }

  /** The loop over the plan's members, common to both validations; `final` asks for the desired state itself. */
  method CheckMembers(ms: seq<Member>, seen: seq<Observation>, desired: string, final: bool)
    returns (results: seq<MemberResult>)
    requires |seen| == |ms|
    ensures CheckedInOrder(ms, seen, desired, final, results)
  {
    results := [];
    for i := 0 to |ms|
      invariant |results| == i
      invariant forall j | 0 <= j < i :: results[j] == ResultOf(ms[j], seen[j], Passes(ms[j], seen[j], desired, final))
    {
      results := results + [ResultOf(ms[i], seen[i], Passes(ms[i], seen[i], desired, final))];
    }
  }

  /** The fresh selection, if there is one, pairs one to one with the plan's members. */
  ghost predicate Paired(p: FleetPlan, selected: Option<seq<Pair>>) {
    selected.Some? && multiset(selected.value) == multiset(Pairs(p.members))
  }

  /** `seen[i]` is what is read from member `i` of the plan, if it is looked at. */
  method CheckFleet(p: FleetPlan, selected: Option<seq<Pair>>, seen: seq<Observation>, final: bool)
    returns (res: FleetResult)
    requires ValidPlan(p) && |seen| == |p.members|
    ensures Paired(p, selected) ==>
              && CheckedInOrder(p.members, seen, p.desired, final, res.members)
              && (res.succeeded <==> forall i | 0 <= i < |seen| :: Passes(p.members[i], seen[i], p.desired, final))
    ensures !Paired(p, selected) ==> res == FleetResult(false, [])
  {
    if selected == None { return FleetResult(false, []); }
    IdsDistinct(p.members);
    SameMembershipIsPairing(p.members, selected.value);
    if Elements(selected.value) != Elements(Pairs(p.members)) || |selected.value| != |p.members| {
      return FleetResult(false, []);
    }
    var results := CheckMembers(p.members, seen, p.desired, final);
    return FleetResult(AllSucceeded(results), results);
  }

  /**
   * `preflight_fleet`. It succeeds exactly for a plan whose digest verifies and is the approved one, if an
   * approval is given, a selection that pairs with it, and members that are all as they were: a deployable one
   * signed, with the description and host name its child plan expects, there and not protected, and a
   * compliant one at the desired description.
   */
  method PreflightFleet(p: FleetPlan, verified: bool, digest: nat, approval: Option<nat>, selected: Option<seq<Pair>>,
                        seen: seq<Observation>)
    returns (res: FleetResult)
    requires ValidPlan(p) && |seen| == |p.members|
    ensures res.succeeded <==>
              && verified && (approval == None || approval == Some(digest)) && Paired(p, selected)
              && forall i | 0 <= i < |seen| ::
                   && seen[i].Some?
                   && (p.members[i].child == None ==> seen[i].value.description == Some(p.desired))
                   && (p.members[i].child.Some? ==>
                         && p.members[i].child.value.signed
                         && seen[i].value.description == p.members[i].child.value.currentDescription
                         && seen[i].value.hostname == p.members[i].child.value.hostname
                         && seen[i].value.present && !seen[i].value.guarded)
    ensures verified && (approval == None || approval == Some(digest)) && Paired(p, selected) ==>
              CheckedInOrder(p.members, seen, p.desired, false, res.members)
    ensures !verified || (approval != None && approval != Some(digest)) || !Paired(p, selected) ==>
              res == FleetResult(false, [])
  {
    if !verified || (approval.Some? && approval.value != digest) { return FleetResult(false, []); }
    res := CheckFleet(p, selected, seen, false);
  }

  /** `validate_fleet_desired_state`: exactly a selection that pairs, and every member at the desired description. */
  method ValidateDesiredState(p: FleetPlan, selected: Option<seq<Pair>>, seen: seq<Observation>)
    returns (res: FleetResult)
    requires ValidPlan(p) && |seen| == |p.members|
    ensures res.succeeded <==>
              Paired(p, selected) &&
              forall i | 0 <= i < |seen| :: seen[i].Some? && seen[i].value.description == Some(p.desired)
    ensures Paired(p, selected) ==> CheckedInOrder(p.members, seen, p.desired, true, res.members)
    ensures !Paired(p, selected) ==> res == FleetResult(false, [])
  {
    res := CheckFleet(p, selected, seen, true);
  }
}
