/**
 * The readiness loop of the profiled staging run: two deadlines, one extension, a state-poll grid and
 * a grace period after boot. Seconds are reals; probes and state polls answer as they like and take
 * as long as they like; the clock never goes back and a sleep lasts at least as long as asked.
 */
module Readiness {
  import opened Sequences

  const NORMAL_TIMEOUT := 180.0
  const MAX_TIMEOUT := 300.0
  const POLL := 5.0
  const STATE_POLL := 10.0
  const GRACE := 60.0
  const MAX_SECONDS := 7200.0

  datatype NodeState =
    | DefinedOnCore | Queued | Started | Starting | Booting
    | Booted
    | Unrecognised(id: nat)

  predicate Transitional(s: NodeState) { !s.Booted? && !s.Unrecognised? }

  type States = map<string, Option<NodeState>>

  type Boots = map<string, Option<real>>

  datatype Verdict = Ready | TimedOut

  datatype Evidence = Evidence(
    name: string, verdict: Verdict, elapsed: real, state: Option<NodeState>, firstBooted: Option<real>)

  /** The evidence's own validator: bounded times, and no first boot later than the time recorded. */
  predicate ValidEvidence(e: Evidence) {
    && 0.0 <= e.elapsed <= MAX_SECONDS
    && (e.firstBooted.Some? ==> 0.0 <= e.firstBooted.value <= MAX_SECONDS && e.firstBooted.value <= e.elapsed)
  }

  /** Every first boot was seen between the beginning of the loop and `at`. */
  ghost predicate BootsBy(boots: Boots, at: real) {
    at >= 0.0 && forall d {:trigger BootBy(boots, at, d)} | d in boots :: BootBy(boots, at, d)
  }

  predicate BootBy(boots: Boots, at: real, d: string)
    requires d in boots
  {
    boots[d].Some? ==> 0.0 <= boots[d].value <= at
  }

  lemma BootsLater(boots: Boots, at: real, later: real)
    requires BootsBy(boots, at) && at <= later
    ensures BootsBy(boots, later)
  {
    forall d | d in boots ensures BootBy(boots, later, d) { assert BootBy(boots, at, d); }
  }

  predicate InGrace(name: string, states: States, boots: Boots, elapsed: real)
    requires name in states && name in boots
  {
    states[name] == Some(Booted) && boots[name].Some? && elapsed < boots[name].value + GRACE
  }

  predicate GraceExpiredFor(name: string, states: States, boots: Boots, elapsed: real)
    requires name in states && name in boots
  {
    states[name] == Some(Booted) && boots[name].Some? && elapsed >= boots[name].value + GRACE
  }

  predicate PostBootGraceExpired(devices: set<string>, states: States, boots: Boots, elapsed: real)
    requires devices <= states.Keys && devices <= boots.Keys
  {
    exists d | d in devices :: GraceExpiredFor(d, states, boots, elapsed)
  }

  predicate ExtensionIsAdmitted(devices: set<string>, states: States, boots: Boots, elapsed: real)
    requires devices <= states.Keys && devices <= boots.Keys
  {
    && devices != {}
    && forall d | d in devices ::
         (states[d].Some? && Transitional(states[d].value)) || InGrace(d, states, boots, elapsed)
  }

  /** The recorded facts, in the canonical order of the scope. */
  function InScopeOrder(devices: seq<string>, results: map<string, Evidence>): seq<Evidence> {
    if devices == [] then []
    else (if devices[0] in results then [results[devices[0]]] else []) + InScopeOrder(devices[1..], results)
  }

  lemma {:induction false} CompleteScope(devices: seq<string>, results: map<string, Evidence>)
    requires forall d | d in devices :: d in results
    ensures |InScopeOrder(devices, results)| == |devices|
    ensures forall i | 0 <= i < |devices| :: InScopeOrder(devices, results)[i] == results[devices[i]]
  {
    if devices != [] {
      CompleteScope(devices[1..], results);
      forall i | 0 < i < |devices| ensures InScopeOrder(devices, results)[i] == results[devices[i]] {
        assert devices[i] == devices[1..][i - 1];
      }
    }
  }

  /** A partial list is extended at its end by the next device of the scope, if that has a fact. */
  lemma {:induction false} PartialScope(first: seq<string>, d: string, results: map<string, Evidence>)
    ensures InScopeOrder(first + [d], results)
            == InScopeOrder(first, results) + (if d in results then [results[d]] else [])
  {
    if first == [] {
      assert first + [d] == [d] && [d][1..] == [];
    } else {
      PartialScope(first[1..], d, results);
      var n := InScopeOrder(first[1..], results);
      var more := if d in results then [results[d]] else [];
      var head := if first[0] in results then [results[first[0]]] else [];
      assert (first + [d])[1..] == first[1..] + [d];
      assert head + (n + more) == (head + n) + more;
    }
  }

  // ---------------------------------------------------------------- the grid and the measure

  /** The catch-up loop: the next observation stays on the grid, above `at` by one interval at most. */
  method CatchUp(next: real, at: real) returns (later: real, ghost steps: nat)
    ensures later == next + steps as real * STATE_POLL
    ensures later > at
    ensures next <= at ==> 0 < steps && later <= at + STATE_POLL
    ensures next > at ==> steps == 0
  {
    later, steps := next, 0;
    while later <= at
      invariant later == next + steps as real * STATE_POLL
      invariant next <= at ==> later <= at + STATE_POLL
      invariant next > at ==> steps == 0
      invariant steps == 0 ==> later == next
      decreases at - later + STATE_POLL
    {
      later := later + STATE_POLL;
      steps := steps + 1;
    }
  }

  /** How many five-second sleeps fit before the next boundary, plus one while it is still ahead. */
  ghost function SleepsLeft(clock: real, boundary: real): nat {
    if clock >= boundary then 0 else 1 + ((boundary - clock) / POLL).Floor
  }

  /** Sleeping ends at the deadline or the next state poll, whichever comes first. */
  function Boundary(deadline: real, next: real): real {
    if deadline < next then deadline else next
  }

  lemma LaterSleepsLess(clock: real, woken: real, boundary: real)
    requires clock <= woken
    ensures SleepsLeft(woken, boundary) <= SleepsLeft(clock, boundary)
  {
    if woken < boundary { assert (boundary - woken) / POLL <= (boundary - clock) / POLL; }
  }

  lemma SleepShrinks(clock: real, woken: real, boundary: real)
    requires clock < boundary
    requires woken >= boundary || woken >= clock + POLL
    ensures SleepsLeft(woken, boundary) < SleepsLeft(clock, boundary)
  {
    if woken < boundary {
      assert (boundary - woken) / POLL <= (boundary - clock) / POLL - 1.0;
    }
  }

  // ---------------------------------------------------------------- what a run did

  datatype Decision = Probe | Extend | StopForGrace | StopForDeadline

  /** One turn of the loop: when and on what knowledge it decided, and what. */
  datatype Pass = Pass(at: real, remaining: set<string>, states: States, boots: Boots, decision: Decision)
  {
    ghost predicate WellFormed() {
      remaining != {} && remaining <= states.Keys && remaining <= boots.Keys && BootsBy(boots, at)
    }

    ghost predicate GraceExpired()
      requires WellFormed()
    {
      PostBootGraceExpired(remaining, states, boots, at)
    }

    /** Every decision was taken for the reasons the policy gives, under the deadline then in force. */
    ghost predicate Justified(deadline: real)
      requires WellFormed()
    {
      match decision
      case Probe => at < deadline && (at >= NORMAL_TIMEOUT ==> !GraceExpired())
      case Extend =>
        && deadline == NORMAL_TIMEOUT && at >= NORMAL_TIMEOUT && !GraceExpired()
        && ExtensionIsAdmitted(remaining, states, boots, at)
      case StopForGrace => at >= NORMAL_TIMEOUT && GraceExpired()
      case StopForDeadline =>
        && at >= deadline && !GraceExpired()
        && (deadline == NORMAL_TIMEOUT ==> !ExtensionIsAdmitted(remaining, states, boots, at))
    }
  }

  /** What a turn at `at` seconds does, under a deadline of `deadline` seconds. */
  function Judge(at: real, deadline: real, remaining: set<string>, states: States, boots: Boots)
    : (decision: Decision)
    requires remaining != {} && remaining <= states.Keys && remaining <= boots.Keys
    requires deadline == NORMAL_TIMEOUT || deadline == MAX_TIMEOUT
    requires BootsBy(boots, at)
    ensures Pass(at, remaining, states, boots, decision).Justified(deadline)
  {
    if at >= NORMAL_TIMEOUT && PostBootGraceExpired(remaining, states, boots, at) then StopForGrace
    else if at >= deadline then
      if deadline == NORMAL_TIMEOUT && ExtensionIsAdmitted(remaining, states, boots, at) then Extend
      else StopForDeadline
    else Probe
  }

  function Extensions(passes: seq<Pass>): nat {
    if passes == [] then 0
    else Extensions(passes[..|passes| - 1]) + if passes[|passes| - 1].decision == Extend then 1 else 0
  }

  function DeadlineAfter(passes: seq<Pass>): real {
    if Extensions(passes) == 0 then NORMAL_TIMEOUT else MAX_TIMEOUT
  }

  ghost predicate JustifiedAt(passes: seq<Pass>, i: nat)
    requires i < |passes|
  {
    && passes[i].WellFormed() && passes[i].Justified(DeadlineAfter(passes[..i]))
    && (i < |passes| - 1 ==> passes[i].decision in {Probe, Extend})
  }

  /** Every turn justified, the loop going on after all but the last, one extension at most. */
  ghost predicate History(passes: seq<Pass>) {
    && Extensions(passes) <= 1
    && forall i {:trigger JustifiedAt(passes, i)} | 0 <= i < |passes| :: JustifiedAt(passes, i)
  }

  predicate GoesOn(passes: seq<Pass>) {
    passes == [] || passes[|passes| - 1].decision in {Probe, Extend}
  }

  lemma HistoryGrows(passes: seq<Pass>, pass: Pass)
    requires History(passes) && GoesOn(passes)
    requires pass.WellFormed() && pass.Justified(DeadlineAfter(passes))
    ensures History(passes + [pass])
    ensures DeadlineAfter(passes + [pass]) ==
              if pass.decision == Extend then MAX_TIMEOUT else DeadlineAfter(passes)
    ensures GoesOn(passes + [pass]) <==> pass.decision in {Probe, Extend}
  {
    var longer := passes + [pass];
    assert longer[..|passes|] == passes;
    forall i | 0 <= i < |longer| ensures JustifiedAt(longer, i) {
      if i < |passes| {
        assert JustifiedAt(passes, i);
        assert longer[..i] == passes[..i];
      }
    }
  }

  /** First seen booted sixty seconds ago or more. */
  ghost predicate Overdue(pass: Pass, d: string) {
    && d in pass.states && d in pass.boots
    && pass.states[d] == Some(Booted) && pass.boots[d].Some? && pass.at >= pass.boots[d].value + 60.0
  }

  /** On its way to booting, or first seen booted less than sixty seconds ago; not unreadable, not unrecognised. */
  ghost predicate WorthWaitingFor(pass: Pass, d: string) {
    && d in pass.states && d in pass.boots
    && (pass.states[d] in {Some(DefinedOnCore), Some(Queued), Some(Started), Some(Starting), Some(Booting)}
        || (pass.states[d] == Some(Booted) && pass.boots[d].Some? && pass.at < pass.boots[d].value + 60.0))
  }

  ghost predicate Extended(passes: seq<Pass>, i: nat)
    requires i <= |passes|
  {
    exists j | 0 <= j < i :: passes[j].decision == Extend
  }

  /**
   * The policy, in seconds. The deadline moves at most once, from 180 to 300, and exactly when every remaining
   * device is worth waiting for; from 180 on an overdue device stops the loop; and it stops for the deadline
   * at 300, or at 180 when some device is not worth waiting for.
   */
  lemma PolicyHolds(passes: seq<Pass>, i: nat)
    requires History(passes) && i < |passes|
    ensures passes[i].decision == Extend ==>
              && passes[i].at >= 180.0 && !Extended(passes, i)
              && (forall d | d in passes[i].remaining :: WorthWaitingFor(passes[i], d) && !Overdue(passes[i], d))
              && (forall j | 0 <= j < |passes| && j != i :: passes[j].decision != Extend)
    ensures passes[i].decision == Probe ==>
              && passes[i].at < (if Extended(passes, i) then 300.0 else 180.0)
              && (passes[i].at >= 180.0 ==> forall d | d in passes[i].remaining :: !Overdue(passes[i], d))
    ensures passes[i].decision == StopForGrace ==>
              passes[i].at >= 180.0 && exists d | d in passes[i].remaining :: Overdue(passes[i], d)
    ensures passes[i].decision == StopForDeadline ==>
              && (forall d | d in passes[i].remaining :: !Overdue(passes[i], d))
              && (if Extended(passes, i) then passes[i].at >= 300.0
                  else passes[i].at >= 180.0 && exists d | d in passes[i].remaining :: !WorthWaitingFor(passes[i], d))
  {
    assert JustifiedAt(passes, i);
    ExtendedExactly(passes, i);
    AdmittedExactly(passes[i]);
    if passes[i].decision == Extend {
      forall j | 0 <= j < |passes| && j != i ensures passes[j].decision != Extend {
        if passes[j].decision == Extend { TwoExtensions(passes, if i < j then i else j, if i < j then j else i); }
      }
    }
  }

  lemma ExtendedExactly(passes: seq<Pass>, i: nat)
    requires i <= |passes|
    ensures Extended(passes, i) <==> DeadlineAfter(passes[..i]) == 300.0
    ensures !Extended(passes, i) <==> DeadlineAfter(passes[..i]) == 180.0
  {
    if Extensions(passes[..i]) > 0 { SomeExtension(passes, i); }
    if Extended(passes, i) {
      var j :| 0 <= j < i && passes[j].decision == Extend;
      OneExtension(passes[..i], j);
    }
  }

  lemma AdmittedExactly(pass: Pass)
    requires pass.WellFormed()
    ensures pass.GraceExpired() <==> exists d | d in pass.remaining :: Overdue(pass, d)
    ensures ExtensionIsAdmitted(pass.remaining, pass.states, pass.boots, pass.at) <==>
              forall d | d in pass.remaining :: WorthWaitingFor(pass, d)
  {
    forall d | d in pass.remaining
      ensures GraceExpiredFor(d, pass.states, pass.boots, pass.at) <==> Overdue(pass, d)
      ensures ((pass.states[d].Some? && Transitional(pass.states[d].value)) ||
               InGrace(d, pass.states, pass.boots, pass.at)) <==> WorthWaitingFor(pass, d)
    {}
    if pass.GraceExpired() {
      var d :| d in pass.remaining && GraceExpiredFor(d, pass.states, pass.boots, pass.at);
      assert Overdue(pass, d);
    }
  }

  lemma {:induction false} TwoExtensions(passes: seq<Pass>, i: nat, j: nat)
    requires i < j < |passes| && passes[i].decision == passes[j].decision == Extend
    ensures Extensions(passes) >= 2
  {
    var n := |passes| - 1;
    if j < n { TwoExtensions(passes[..n], i, j); } else { OneExtension(passes[..n], i); }
  }

  lemma {:induction false} OneExtension(passes: seq<Pass>, i: nat)
    requires i < |passes| && passes[i].decision == Extend
    ensures Extensions(passes) >= 1
  {
    if i < |passes| - 1 { OneExtension(passes[..|passes| - 1], i); }
  }

  lemma {:induction false} SomeExtension(passes: seq<Pass>, n: nat)
    requires n <= |passes| && Extensions(passes[..n]) > 0
    ensures exists j | 0 <= j < n :: passes[j].decision == Extend
  {
    if passes[n - 1].decision != Extend {
      assert passes[..n][..n - 1] == passes[..n - 1];
      SomeExtension(passes, n - 1);
    }
  }

  // ---------------------------------------------------------------- one turn

  /** Reading the clock at or after `clock`; any time may have passed since. */
  method Now(clock: real) returns (t: real)
    ensures t >= clock
  {
    var passed: real :| passed >= 0.0;
    t := clock + passed;
  }

  /** Remembering the observed states, and for each device when it was first seen booted. */
  method Absorb(candidates: States, at: real, states: States, boots: Boots)
    returns (states': States, boots': Boots)
    requires candidates.Keys <= boots.Keys && BootsBy(boots, at)
    ensures states' == states + candidates
    ensures BootsBy(boots', at)
    ensures boots'.Keys == boots.Keys
    ensures forall d | d in boots :: boots'[d] ==
              if d in candidates && candidates[d] == Some(Booted) && boots[d] == None then Some(at) else boots[d]
  {
    states', boots' := states, boots;
    var todo := candidates.Keys;
    while todo != {}
      invariant todo <= candidates.Keys
      invariant states'.Keys == states.Keys + (candidates.Keys - todo)
      invariant forall d | d in states' ::
                  states'[d] == if d in candidates.Keys - todo then candidates[d] else states[d]
      invariant boots'.Keys == boots.Keys
      invariant forall d | d in boots :: boots'[d] ==
                  if d in candidates.Keys - todo && candidates[d] == Some(Booted) && boots[d] == None
                  then Some(at) else boots[d]
    {
      var d :| d in todo;
      states' := states'[d := candidates[d]];
      if candidates[d] == Some(Booted) && boots'[d] == None { boots' := boots'[d := Some(at)]; }
      todo := todo - {d};
    }
    forall d | d in boots' ensures BootBy(boots', at, d) { assert BootBy(boots, at, d); }
  }

  /** Sleeping five seconds or to the boundary, whichever comes first; not at all past the boundary. */
  method Pause(clock: real, boundary: real) returns (woken: real)
    ensures woken >= clock
    ensures woken >= boundary || woken >= clock + 5.0
  {
    woken := Now(clock);
    var ahead := if boundary - woken > 0.0 then boundary - woken else 0.0;
    var pause := if ahead < POLL then ahead else POLL;
    if pause != 0.0 { woken := Now(woken + pause); }
  }

  // ---------------------------------------------------------------- what the turns have to do with the state polls

  /** One poll of the node states: what was read of each remaining device, if anything, and when it was answered. */
  datatype Reading = Reading(at: real, states: States)

  ghost predicate ReadBooted(r: Reading, d: string) { d in r.states && r.states[d] == Some(Booted) }

  /** The state of the device as last read. */
  ghost function StateAfter(readings: seq<Reading>, d: string): Option<NodeState> {
    if readings == [] then None
    else
      var n := |readings| - 1;
      if d in readings[n].states then readings[n].states[d] else StateAfter(readings[..n], d)
  }

  /** When the device was first read as booted. */
  ghost function BootAfter(readings: seq<Reading>, d: string): Option<real> {
    if readings == [] then None
    else
      var n := |readings| - 1;
      var earlier := BootAfter(readings[..n], d);
      if earlier == None && ReadBooted(readings[n], d) then Some(readings[n].at) else earlier
  }

  /** A first boot is the time of the first reading that shows it. */
  lemma {:induction false} BootIsFirstRead(readings: seq<Reading>, d: string)
    ensures BootAfter(readings, d) == None <==> forall k | 0 <= k < |readings| :: !ReadBooted(readings[k], d)
    ensures forall k | 0 <= k < |readings| && ReadBooted(readings[k], d)
                       && (forall j | 0 <= j < k :: !ReadBooted(readings[j], d)) ::
              BootAfter(readings, d) == Some(readings[k].at)
  {
    if readings != [] {
      var n := |readings| - 1;
      BootIsFirstRead(readings[..n], d);
      assert forall k | 0 <= k < n :: readings[..n][k] == readings[k];
    }
  }

  /** A state is that of the last reading that has one, and unknown before the first. */
  lemma {:induction false} StateIsLastRead(readings: seq<Reading>, d: string)
    ensures forall k | 0 <= k < |readings| && d in readings[k].states
                       && (forall j | k < j < |readings| :: d !in readings[j].states) ::
              StateAfter(readings, d) == readings[k].states[d]
    ensures (forall k | 0 <= k < |readings| :: d !in readings[k].states) ==> StateAfter(readings, d) == None
  {
    if readings != [] {
      var n := |readings| - 1;
      StateIsLastRead(readings[..n], d);
      assert forall k | 0 <= k < n :: readings[..n][k] == readings[k];
    }
  }

  /** For each device of the scope, these are the state and first boot that the readings so far have shown. */
  ghost predicate Current(states: States, boots: Boots, scope: set<string>, readings: seq<Reading>) {
    forall d {:trigger CurrentFor(states, boots, readings, d)} | d in scope :: CurrentFor(states, boots, readings, d)
  }

  ghost predicate CurrentFor(states: States, boots: Boots, readings: seq<Reading>, d: string) {
    d in states && d in boots && states[d] == StateAfter(readings, d) && boots[d] == BootAfter(readings, d)
  }

  lemma NothingRead(scope: set<string>)
    ensures Current(map d | d in scope :: None, map d | d in scope :: None, scope, [])
  {
    var states: States, boots: Boots := map d | d in scope :: None, map d | d in scope :: None;
    forall d | d in scope ensures CurrentFor(states, boots, [], d) {}
  }

  lemma OneMoreReading(states: States, boots: Boots, states': States, boots': Boots, scope: set<string>,
                       readings: seq<Reading>, r: Reading)
    requires Current(states, boots, scope, readings) && states' == states + r.states && boots'.Keys == boots.Keys
    requires forall d | d in boots :: boots'[d] ==
               if d in r.states && r.states[d] == Some(Booted) && boots[d] == None then Some(r.at) else boots[d]
    ensures Current(states', boots', scope, readings + [r])
  {
    assert (readings + [r])[..|readings|] == readings;
    forall d | d in scope ensures CurrentFor(states', boots', readings + [r], d) {
      assert CurrentFor(states, boots, readings, d);
    }
  }

  /** Turn `i` decided on what was read until less than ten seconds before. */
  ghost predicate InformedAt(passes: seq<Pass>, readings: seq<Reading>, scope: set<string>, i: nat)
    requires i < |passes|
  {
    exists n | 0 < n <= |readings| ::
      && Current(passes[i].states, passes[i].boots, scope, readings[..n])
      && readings[n - 1].at <= passes[i].at < readings[n - 1].at + 10.0
  }

  ghost predicate Informed(passes: seq<Pass>, readings: seq<Reading>, scope: set<string>) {
    forall i {:trigger InformedAt(passes, readings, scope, i)} | 0 <= i < |passes| ::
      InformedAt(passes, readings, scope, i)
  }

  lemma InformedGrows(passes: seq<Pass>, readings: seq<Reading>, readings': seq<Reading>, scope: set<string>,
                      pass: Pass)
    requires Informed(passes, readings, scope) && readings <= readings' && readings' != []
    requires Current(pass.states, pass.boots, scope, readings')
    requires var last := readings'[|readings'| - 1].at; last <= pass.at < last + 10.0
    ensures Informed(passes + [pass], readings', scope)
  {
    var longer := passes + [pass];
    forall i | 0 <= i < |longer| ensures InformedAt(longer, readings', scope, i) {
      if i < |passes| {
        assert InformedAt(passes, readings, scope, i);
        var n :| 0 < n <= |readings| && Current(passes[i].states, passes[i].boots, scope, readings[..n])
                 && readings[n - 1].at <= passes[i].at < readings[n - 1].at + 10.0;
        assert readings'[..n] == readings[..n];
      } else {
        assert readings'[..|readings'|] == readings';
      }
    }
  }

  // ---------------------------------------------------------------- what the turns have to do with the probes

  /**
   * One attempt to connect to a device: in which turn, when it began, and when the connection stood, if it
   * ever did, in seconds since the loop began.
   */
  datatype Attempt = Attempt(device: string, turn: nat, at: real, connected: Option<real>)

  /** The attempt connected by the deadline in force in its turn. */
  ghost predicate Counts(a: Attempt, passes: seq<Pass>) {
    a.turn < |passes| && a.connected.Some? && a.connected.value <= DeadlineAfter(passes[..a.turn])
  }

  /**
   * Attempt `k` belongs to a recorded turn that decided to probe, was made after that decision and before
   * the deadline in force, to a device then remaining, and is the only one to that device in that turn.
   */
  ghost predicate AllowedAt(attempts: seq<Attempt>, k: nat, passes: seq<Pass>)
    requires k < |attempts|
  {
    var a := attempts[k];
    && a.turn < |passes|
    && passes[a.turn].decision == Probe && a.device in passes[a.turn].remaining
    && passes[a.turn].at <= a.at < DeadlineAfter(passes[..a.turn])
    && (a.connected.Some? ==> a.at <= a.connected.value)
    && forall j | 0 <= j < k :: attempts[j].device != a.device || attempts[j].turn != a.turn
  }

  ghost predicate Allowed(attempts: seq<Attempt>, passes: seq<Pass>) {
    forall k {:trigger AllowedAt(attempts, k, passes)} | 0 <= k < |attempts| :: AllowedAt(attempts, k, passes)
  }

  /** Turn `turn` has made no attempt yet to any of these devices. */
  ghost predicate Untried(attempts: seq<Attempt>, turn: nat, devices: set<string>) {
    forall k | 0 <= k < |attempts| && attempts[k].turn == turn :: attempts[k].device !in devices
  }

  ghost predicate TriedAt(attempts: seq<Attempt>, turn: nat, d: string) {
    exists k | 0 <= k < |attempts| :: attempts[k].device == d && attempts[k].turn == turn
  }

  /** Turn `turn` has made an attempt to each of these devices. */
  ghost predicate Tried(attempts: seq<Attempt>, turn: nat, devices: set<string>) {
    forall d {:trigger TriedAt(attempts, turn, d)} | d in devices :: TriedAt(attempts, turn, d)
  }

  lemma TriedLater(attempts: seq<Attempt>, attempts': seq<Attempt>, turn: nat, devices: set<string>)
    requires Tried(attempts, turn, devices) && attempts <= attempts'
    ensures Tried(attempts', turn, devices)
  {
    forall d | d in devices ensures TriedAt(attempts', turn, d) {
      assert TriedAt(attempts, turn, d);
      var k :| 0 <= k < |attempts| && attempts[k].device == d && attempts[k].turn == turn;
      assert attempts'[k] == attempts[k];
    }
  }

  lemma TriedOne(attempts: seq<Attempt>, a: Attempt, devices: set<string>)
    requires Tried(attempts, a.turn, devices)
    ensures Tried(attempts + [a], a.turn, devices + {a.device})
  {
    TriedLater(attempts, attempts + [a], a.turn, devices);
    assert (attempts + [a])[|attempts|] == a;
  }

  /** Each turn that decided to probe tried every device then remaining, or the deadline came before it was over. */
  ghost predicate Thorough(attempts: seq<Attempt>, passes: seq<Pass>, now: real) {
    passes == [] ||
    var n := |passes| - 1;
    && Thorough(attempts, passes[..n], passes[n].at)
    && (passes[n].decision == Probe ==>
          Tried(attempts, n, passes[n].remaining) || now >= DeadlineAfter(passes[..n]))
  }

  lemma {:induction false} ThoroughLater(attempts: seq<Attempt>, passes: seq<Pass>, now: real,
                                         attempts': seq<Attempt>, later: real)
    requires Thorough(attempts, passes, now) && attempts <= attempts' && now <= later
    ensures Thorough(attempts', passes, later)
  {
    if passes != [] {
      var n := |passes| - 1;
      ThoroughLater(attempts, passes[..n], passes[n].at, attempts', passes[n].at);
      if Tried(attempts, n, passes[n].remaining) { TriedLater(attempts, attempts', n, passes[n].remaining); }
    }
  }

  lemma ThoroughGrows(attempts: seq<Attempt>, passes: seq<Pass>, now: real, attempts': seq<Attempt>, pass: Pass,
                      later: real)
    requires Thorough(attempts, passes, now) && attempts <= attempts' && now <= pass.at
    requires pass.decision == Probe ==>
               Tried(attempts', |passes|, pass.remaining) || later >= DeadlineAfter(passes)
    ensures Thorough(attempts', passes + [pass], later)
  {
    assert (passes + [pass])[..|passes|] == passes;
    ThoroughLater(attempts, passes, now, attempts', pass.at);
  }

  /** Turn by turn: a device that a probing turn did not try was left only because the deadline had come. */
  lemma {:induction false} EveryTurnIsThorough(attempts: seq<Attempt>, passes: seq<Pass>, now: real, i: nat, d: string)
    requires Thorough(attempts, passes, now) && i < |passes|
    requires passes[i].decision == Probe && d in passes[i].remaining
    ensures || TriedAt(attempts, i, d)
            || (if i == |passes| - 1 then now else passes[i + 1].at) >= DeadlineAfter(passes[..i])
  {
    var n := |passes| - 1;
    if i < n {
      EveryTurnIsThorough(attempts, passes[..n], passes[n].at, i, d);
      assert passes[..n][..i] == passes[..i];
    }
  }

  lemma OneMoreTurn(attempts: seq<Attempt>, passes: seq<Pass>, pass: Pass, devices: set<string>)
    requires Allowed(attempts, passes)
    ensures Allowed(attempts, passes + [pass]) && Untried(attempts, |passes|, devices)
    ensures forall k | 0 <= k < |attempts| :: Counts(attempts[k], passes + [pass]) <==> Counts(attempts[k], passes)
  {
    forall k | 0 <= k < |attempts|
      ensures AllowedAt(attempts, k, passes + [pass]) && attempts[k].turn < |passes|
      ensures Counts(attempts[k], passes + [pass]) <==> Counts(attempts[k], passes)
    {
      assert AllowedAt(attempts, k, passes);
      assert (passes + [pass])[..attempts[k].turn] == passes[..attempts[k].turn];
    }
  }

  lemma OneMoreAttempt(attempts: seq<Attempt>, passes: seq<Pass>, a: Attempt, todo: set<string>)
    requires Allowed(attempts, passes) && Untried(attempts, a.turn, todo) && a.device in todo && a.turn < |passes|
    requires passes[a.turn].decision == Probe && a.device in passes[a.turn].remaining
    requires passes[a.turn].at <= a.at < DeadlineAfter(passes[..a.turn])
    requires a.connected.Some? ==> a.at <= a.connected.value
    ensures Allowed(attempts + [a], passes) && Untried(attempts + [a], a.turn, todo - {a.device})
  {
    var more := attempts + [a];
    forall k | 0 <= k < |more| ensures AllowedAt(more, k, passes) {
      if k < |attempts| { assert AllowedAt(attempts, k, passes); }
    }
  }

  /** Every device that an attempt counts for was observed, but for those lost. */
  ghost predicate Heard(attempts: seq<Attempt>, passes: seq<Pass>, observed: map<string, real>, lost: set<string>) {
    forall k {:trigger Counts(attempts[k], passes)} | 0 <= k < |attempts| ::
      Counts(attempts[k], passes) ==> HeardOf(observed, lost, attempts[k].device)
  }

  predicate HeardOf(observed: map<string, real>, lost: set<string>, d: string) { d in observed || d in lost }

  lemma HeardOne(attempts: seq<Attempt>, passes: seq<Pass>, observed: map<string, real>, a: Attempt)
    requires Heard(attempts, passes, observed, {})
    ensures Heard(attempts + [a], passes, observed, {a.device})
    ensures !Counts(a, passes) ==> Heard(attempts + [a], passes, observed, {})
  {
    var more := attempts + [a];
    forall k | 0 <= k < |more| && Counts(more[k], passes)
      ensures HeardOf(observed, if Counts(a, passes) then {a.device} else {}, more[k].device)
    {
      if k < |attempts| { assert Counts(attempts[k], passes); }
    }
  }

  lemma HeardMore(attempts: seq<Attempt>, passes: seq<Pass>, observed: map<string, real>, d: string, elapsed: real)
    requires Heard(attempts, passes, observed, {d})
    ensures Heard(attempts, passes, observed[d := elapsed], {})
  {}

  /** A READY fact comes from an attempt that counts, not before it connected, with the states its turn decided on. */
  ghost predicate Witnessed(e: Evidence, passes: seq<Pass>, attempts: seq<Attempt>) {
    exists k | 0 <= k < |attempts| :: WitnessedBy(e, passes, attempts[k])
  }

  ghost predicate WitnessedBy(e: Evidence, passes: seq<Pass>, a: Attempt) {
    && a.device == e.name && Counts(a, passes) && a.connected.value <= e.elapsed
    && e.name in passes[a.turn].states && e.state == passes[a.turn].states[e.name]
    && e.name in passes[a.turn].boots && e.firstBooted == passes[a.turn].boots[e.name]
  }

  /**
   * Every READY fact of a run: its attempt was made and connected by the deadline, 180 seconds or 300 after the
   * extension, in a turn that decided to probe it; and from 180 on no device then remaining was overdue.
   */
  lemma ReadyWithinPolicy(passes: seq<Pass>, attempts: seq<Attempt>, e: Evidence)
    requires History(passes) && Allowed(attempts, passes) && Witnessed(e, passes, attempts)
    ensures exists k | 0 <= k < |attempts| ::
              && attempts[k].device == e.name && attempts[k].connected.Some?
              && attempts[k].connected.value <= e.elapsed
              && var turn := attempts[k].turn;
                 && turn < |passes|
                 && passes[turn].decision == Probe && e.name in passes[turn].remaining
                 && passes[turn].at <= attempts[k].at <= attempts[k].connected.value
                 && attempts[k].at < (if Extended(passes, turn) then 300.0 else 180.0)
                 && attempts[k].connected.value <= (if Extended(passes, turn) then 300.0 else 180.0)
                 && (passes[turn].at >= 180.0 ==> forall d | d in passes[turn].remaining :: !Overdue(passes[turn], d))
  {
    var k :| 0 <= k < |attempts| && WitnessedBy(e, passes, attempts[k]);
    assert AllowedAt(attempts, k, passes);
    PolicyHolds(passes, attempts[k].turn);
    ExtendedExactly(passes, attempts[k].turn);
  }

  /** Device `d` has a READY fact with its own elapsed time, from one of the attempts. */
  ghost predicate FactAt(results: map<string, Evidence>, observed: map<string, real>, passes: seq<Pass>,
                         attempts: seq<Attempt>, d: string)
  {
    && d in results && d in observed
    && results[d].name == d && results[d].verdict == Ready && results[d].elapsed == observed[d]
    && ValidEvidence(results[d]) && Witnessed(results[d], passes, attempts)
  }

  ghost predicate ReadyFacts(results: map<string, Evidence>, observed: map<string, real>, passes: seq<Pass>,
                             attempts: seq<Attempt>)
  {
    forall d {:trigger FactAt(results, observed, passes, attempts, d)} | d in observed ::
      FactAt(results, observed, passes, attempts, d)
  }

  lemma ReadOff(results: map<string, Evidence>, observed: map<string, real>, passes: seq<Pass>, attempts: seq<Attempt>)
    requires ReadyFacts(results, observed, passes, attempts)
    ensures forall d | d in observed ::
              && d in results && results[d].name == d && results[d].verdict == Ready
              && results[d].elapsed == observed[d]
              && ValidEvidence(results[d]) && Witnessed(results[d], passes, attempts)
  {
    forall d | d in observed ensures FactAt(results, observed, passes, attempts, d) {}
  }

  lemma FactsLater(results: map<string, Evidence>, observed: map<string, real>, passes: seq<Pass>,
                   attempts: seq<Attempt>, passes': seq<Pass>, attempts': seq<Attempt>)
    requires ReadyFacts(results, observed, passes, attempts) && passes <= passes' && attempts <= attempts'
    ensures ReadyFacts(results, observed, passes', attempts')
  {
    forall d | d in observed ensures FactAt(results, observed, passes', attempts', d) {
      assert FactAt(results, observed, passes, attempts, d);
      var k :| 0 <= k < |attempts| && WitnessedBy(results[d], passes, attempts[k]);
      assert passes'[..attempts[k].turn] == passes[..attempts[k].turn];
      assert WitnessedBy(results[d], passes', attempts'[k]);
    }
  }

  lemma OneMoreFact(results: map<string, Evidence>, observed: map<string, real>, passes: seq<Pass>,
                    attempts: seq<Attempt>, e: Evidence, k: nat)
    requires ReadyFacts(results, observed, passes, attempts) && e.verdict == Ready && ValidEvidence(e)
    requires k < |attempts| && WitnessedBy(e, passes, attempts[k])
    ensures ReadyFacts(results[e.name := e], observed[e.name := e.elapsed], passes, attempts)
  {
    var results', observed' := results[e.name := e], observed[e.name := e.elapsed];
    forall d | d in observed' ensures FactAt(results', observed', passes, attempts, d) {
      if d != e.name { assert FactAt(results, observed, passes, attempts, d); }
    }
  }

  /** Facts on these devices carry their last state and boot time; no other fact is lost or changed. */
  ghost predicate Updated(before: map<string, Evidence>, after: map<string, Evidence>, found: set<string>,
                          states: States, boots: Boots)
  {
    forall d {:trigger UpdatedAt(before, after, found, states, boots, d)} | d in before || d in found ::
      UpdatedAt(before, after, found, states, boots, d)
  }

  ghost predicate UpdatedAt(before: map<string, Evidence>, after: map<string, Evidence>, found: set<string>,
                            states: States, boots: Boots, d: string)
  {
    && d in after
    && if d in found then d in states && d in boots && after[d].state == states[d] && after[d].firstBooted == boots[d]
       else d in before && after[d] == before[d]
  }

  lemma OneMoreUpdate(before: map<string, Evidence>, after: map<string, Evidence>, found: set<string>, states: States,
                      boots: Boots, e: Evidence)
    requires Updated(before, after, found, states, boots) && e.name in states && e.name in boots
    requires e.state == states[e.name] && e.firstBooted == boots[e.name]
    ensures Updated(before, after[e.name := e], found + {e.name}, states, boots)
  {
    forall d | d in before || d in found + {e.name}
      ensures UpdatedAt(before, after[e.name := e], found + {e.name}, states, boots, d)
    {
      if d != e.name { assert UpdatedAt(before, after, found, states, boots, d); }
    }
  }

  /**
   * The turns follow one another: they begin with the whole scope, time does not go back, and devices leave
   * only from a turn that decided to probe; `left` is what remains after the last.
   */
  ghost predicate Linked(scope: set<string>, passes: seq<Pass>, left: set<string>) {
    && scope == (if passes == [] then left else passes[0].remaining)
    && forall i {:trigger LinkAt(passes, i, left)} | 0 <= i < |passes| :: LinkAt(passes, i, left)
  }

  /** Turn `i`, and what remained after it. */
  ghost predicate LinkAt(passes: seq<Pass>, i: nat, left: set<string>)
    requires i < |passes|
  {
    var after := if i == |passes| - 1 then left else passes[i + 1].remaining;
    && after <= passes[i].remaining
    && (passes[i].decision != Probe ==> after == passes[i].remaining)
    && (i > 0 ==> passes[i - 1].at <= passes[i].at)
  }

  lemma LinkedGrows(scope: set<string>, passes: seq<Pass>, left: set<string>, pass: Pass, left': set<string>)
    requires Linked(scope, passes, left)
    requires pass.remaining == left && left' <= left && (pass.decision != Probe ==> left' == left)
    requires passes != [] ==> passes[|passes| - 1].at <= pass.at
    ensures Linked(scope, passes + [pass], left')
  {
    var longer := passes + [pass];
    forall i | 0 <= i < |longer| ensures LinkAt(longer, i, left') {
      if i < |passes| { assert LinkAt(passes, i, left); }
    }
  }

  /** The scope is what remains and what was observed, and nothing is both. */
  ghost predicate Split(scope: set<string>, remaining: set<string>, observed: map<string, real>) {
    forall d {:trigger SplitAt(scope, remaining, observed, d)} :: SplitAt(scope, remaining, observed, d)
  }

  predicate SplitAt(scope: set<string>, remaining: set<string>, observed: map<string, real>, d: string) {
    (d in scope <==> d in remaining || d in observed) && !(d in remaining && d in observed)
  }

  lemma SplitMeans(scope: set<string>, remaining: set<string>, observed: map<string, real>)
    requires Split(scope, remaining, observed)
    ensures remaining <= scope && observed.Keys == scope - remaining
  {
    forall d
      ensures (d in remaining ==> d in scope) && (d in observed <==> d in scope && d !in remaining)
    {
      assert SplitAt(scope, remaining, observed, d);
    }
  }

  /** What left `remaining` was observed, and nothing else. */
  ghost predicate Crossed(remaining: set<string>, observed: map<string, real>, left: set<string>,
                          observed': map<string, real>)
  {
    && left <= remaining
    && forall d {:trigger CrossedAt(remaining, observed, left, observed', d)} ::
         CrossedAt(remaining, observed, left, observed', d)
  }

  predicate CrossedAt(remaining: set<string>, observed: map<string, real>, left: set<string>,
                      observed': map<string, real>, d: string)
  {
    d in observed' <==> d in observed || (d in remaining && d !in left)
  }

  lemma SplitCrossed(scope: set<string>, remaining: set<string>, observed: map<string, real>, left: set<string>,
                     observed': map<string, real>)
    requires Split(scope, remaining, observed) && Crossed(remaining, observed, left, observed')
    ensures Split(scope, left, observed')
  {
    forall d {:trigger SplitAt(scope, left, observed', d)} ensures SplitAt(scope, left, observed', d) {
      assert SplitAt(scope, remaining, observed, d);
      assert CrossedAt(remaining, observed, left, observed', d);
    }
  }

  lemma OneCrosses(remaining: set<string>, observed: map<string, real>, left: set<string>, now: map<string, real>,
                   d: string, elapsed: real)
    requires Crossed(remaining, observed, left, now) && d in left
    ensures Crossed(remaining, observed, left - {d}, now[d := elapsed])
  {
    var left', now' := left - {d}, now[d := elapsed];
    forall x {:trigger CrossedAt(remaining, observed, left', now', x)}
      ensures CrossedAt(remaining, observed, left', now', x)
    {
      assert CrossedAt(remaining, observed, left, now, x);
    }
  }

  lemma NothingCrosses(remaining: set<string>, observed: map<string, real>)
    ensures Crossed(remaining, observed, remaining, observed)
  {}

  /** There is no fact but those from before and those on what was observed. */
  ghost predicate NoOther(results: map<string, Evidence>, prior: set<string>, observed: map<string, real>) {
    forall d {:trigger OldOrObserved(prior, observed, d)} | d in results :: OldOrObserved(prior, observed, d)
  }

  predicate OldOrObserved(prior: set<string>, observed: map<string, real>, d: string) { d in prior || d in observed }

  lemma OneMoreKnown(results: map<string, Evidence>, prior: set<string>, observed: map<string, real>, e: Evidence)
    requires NoOther(results, prior, observed)
    ensures NoOther(results[e.name := e], prior, observed[e.name := e.elapsed])
  {
    var results', observed' := results[e.name := e], observed[e.name := e.elapsed];
    forall d | d in results' ensures OldOrObserved(prior, observed', d) {
      if d != e.name { assert OldOrObserved(prior, observed, d); }
    }
  }

  lemma Found(remaining: set<string>, left: set<string>, d: string)
    requires left <= remaining && d in left
    ensures remaining - (left - {d}) == remaining - left + {d}
  {}

  lemma OneLess(all: set<string>, todo: set<string>, d: string)
    requires d in todo && todo <= all
    ensures all - todo + {d} == all - (todo - {d})
  {}

  // ---------------------------------------------------------------- giving up

  function TimedOutFact(d: string, states: States, boots: Boots, elapsed: real): Evidence
    requires d in states && d in boots
  {
    Evidence(d, TimedOut, elapsed, states[d], boots[d])
  }

  /** The time recorded for a stop: its own, if a grace had expired, and else the deadline in force. */
  function RecordedTime(last: Pass, deadline: real): real {
    if last.decision == StopForGrace then last.at else deadline
  }

  /**
   * A stop can be recorded for every remaining device exactly when it was for an expired grace, within two
   * hours, or none of them was first seen booted after the deadline.
   */
  predicate Recordable(last: Pass, deadline: real) {
    if last.decision == StopForGrace then last.at <= 7200.0
    else forall d | d in last.remaining && d in last.boots && last.boots[d].Some? :: last.boots[d].value <= deadline
  }

  lemma RecordableExactly(last: Pass, deadline: real)
    requires last.WellFormed() && (deadline == NORMAL_TIMEOUT || deadline == MAX_TIMEOUT)
    ensures Recordable(last, deadline) <==>
              forall d | d in last.remaining ::
                ValidEvidence(TimedOutFact(d, last.states, last.boots, RecordedTime(last, deadline)))
  {
    var some :| some in last.remaining;
    var at := RecordedTime(last, deadline);
    if Recordable(last, deadline) {
      forall d | d in last.remaining ensures ValidEvidence(TimedOutFact(d, last.states, last.boots, at)) {
        assert BootBy(last.boots, last.at, d);
      }
    } else if last.decision == StopForGrace {
      assert !ValidEvidence(TimedOutFact(some, last.states, last.boots, at));
    } else {
      var d :| d in last.remaining && d in last.boots && last.boots[d].Some? && last.boots[d].value > deadline;
      assert !ValidEvidence(TimedOutFact(d, last.states, last.boots, at));
    }
  }

  /**
   * A device that boots at the very end: the extension is granted while it is booting, and the state poll
   * begun at the deadline is answered 0.4 seconds later and first sees it booted. The turns meet the policy,
   * but the fact to be recorded has its first boot after its time.
   */
  lemma BootAtTheDeadline(d: string) returns (passes: seq<Pass>)
    ensures |passes| == 3 && History(passes) && Linked({d}, passes, {d})
    ensures passes[2] == Pass(300.4, {d}, map[d := Some(Booted)], map[d := Some(300.4)], StopForDeadline)
    ensures DeadlineAfter(passes) == MAX_TIMEOUT && !Recordable(passes[2], MAX_TIMEOUT)
    ensures !ValidEvidence(TimedOutFact(d, passes[2].states, passes[2].boots, MAX_TIMEOUT))
  {
    var extended := Pass(180.2, {d}, map[d := Some(Booting)], map[d := None], Extend);
    var probed := Pass(295.0, {d}, map[d := Some(Booting)], map[d := None], Probe);
    var stopped := Pass(300.4, {d}, map[d := Some(Booted)], map[d := Some(300.4)], StopForDeadline);
    HistoryGrows([], extended);
    HistoryGrows([extended], probed);
    HistoryGrows([extended, probed], stopped);
    passes := [extended, probed, stopped];
    assert [] + [extended] == [extended] && [extended] + [probed] == [extended, probed];
    assert passes == [extended, probed] + [stopped];
    LinkedGrows({d}, [], {d}, extended, {d});
    LinkedGrows({d}, [extended], {d}, probed, {d});
    LinkedGrows({d}, [extended, probed], {d}, stopped, {d});
  }
}
