/**
 * The readiness loop itself: turns of state polls, connection attempts and sleeps, what they record, and
 * how the wait ends. What the turns mean is in Readiness.dfy.
 */
module ReadinessLoop {
  import opened Sequences
  import opened Readiness

  datatype ProbeResult = Connected | NotReached | OutOfTime

  /** How the wait ended: every device observed, the policy's stop, or evidence its own validator rejected. */
  datatype Outcome = AllReady(observed: map<string, real>) | GaveUp | EvidenceRejected

  /**
   * What one probe may do: nothing, because the deadline has come; or one attempt, whose answer decides,
   * and after which time may have run out.
   */
  ghost predicate ProbeMeans(before: seq<Attempt>, after: seq<Attempt>, d: string, passes: seq<Pass>,
                             probe: ProbeResult, late: bool)
  {
    if after == before then probe == OutOfTime && late
    else
      && |after| == |before| + 1 && before <= after && passes != []
      && var a := after[|before|];
         && a.device == d && a.turn == |passes| - 1
         && (probe == Connected <==> Counts(a, passes))
         && (probe == NotReached <==> a.connected == None)
         && (probe == OutOfTime ==> late)
  }

  /** The loop's own variables: what remains and was observed, the deadline, the next state poll, the clock. */
  datatype Loop = Loop(
    remaining: set<string>, observed: map<string, real>, states: States, boots: Boots, deadline: real, next: real,
    clock: real)
  {
    ghost function Sleeps(): nat { SleepsLeft(clock, Boundary(deadline, next)) }
  }

  class LocalTerraformOperations {
    const devices: seq<string>
    var readinessResults: map<string, Evidence>
    var readinessEvidence: seq<Evidence>
    var readinessDeadline: real
    var rejected: Option<Evidence>      // the evidence whose construction raised, ending the wait
    ghost var attempts: seq<Attempt>   // every connection attempt made, in order
    ghost var readings: seq<Reading>   // every poll of the node states, in order
    ghost var prior: set<string>       // the devices with a fact before the wait began

    constructor (devices: seq<string>)
      ensures this.devices == devices && readinessResults == map[]
    {
      this.devices := devices;
      readinessResults := map[];
      readinessEvidence := [];
      readinessDeadline := NORMAL_TIMEOUT;
      rejected := None;
      attempts, readings, prior := [], [], {};
    }

    /** Constructing the evidence, which validates it, and then recording it. */
    method RecordReadiness(e: Evidence) returns (ok: bool)
      modifies `readinessResults, `readinessEvidence, `rejected
      ensures ok <==> ValidEvidence(e)
      ensures ok ==>
                && readinessResults == old(readinessResults)[e.name := e] && rejected == old(rejected)
                && readinessEvidence == InScopeOrder(devices, readinessResults)
      ensures !ok ==>
                && readinessResults == old(readinessResults) && readinessEvidence == old(readinessEvidence)
                && rejected == Some(e)
    {
      if !ValidEvidence(e) {
        rejected := Some(e);
        return false;
      }
      readinessResults := readinessResults[e.name := e];
      readinessEvidence := InScopeOrder(devices, readinessResults);
      return true;
    }

    /** One fact for each remaining device, in any order, up to the first that is rejected. */
    method RecordTimedOut(remaining: set<string>, states: States, boots: Boots, elapsed: real)
      returns (ok: bool, ghost done: set<string>)
      requires remaining <= states.Keys && remaining <= boots.Keys && remaining != {}
      modifies `readinessResults, `readinessEvidence, `rejected
      ensures ok <==> forall d | d in remaining :: ValidEvidence(TimedOutFact(d, states, boots, elapsed))
      ensures done <= remaining && readinessResults.Keys == old(readinessResults).Keys + done
      ensures forall d | d in readinessResults :: readinessResults[d] ==
                if d in done then TimedOutFact(d, states, boots, elapsed) else old(readinessResults)[d]
      ensures ok ==> done == remaining && rejected == old(rejected)
      ensures ok ==> readinessEvidence == InScopeOrder(devices, readinessResults)
      ensures !ok ==>
                && rejected.Some? && rejected.value.name in remaining - done
                && rejected.value == TimedOutFact(rejected.value.name, states, boots, elapsed)
                && !ValidEvidence(rejected.value)
    {
      var todo := remaining;
      done := {};
      while todo != {}
        invariant todo <= remaining && done == remaining - todo && rejected == old(rejected)
        invariant readinessResults.Keys == old(readinessResults).Keys + done
        invariant forall d | d in readinessResults :: readinessResults[d] ==
                    if d in done then TimedOutFact(d, states, boots, elapsed) else old(readinessResults)[d]
        invariant done != {} ==> readinessEvidence == InScopeOrder(devices, readinessResults)
        invariant forall d | d in done :: ValidEvidence(TimedOutFact(d, states, boots, elapsed))
      {
        var d :| d in todo;
        ok := RecordReadiness(TimedOutFact(d, states, boots, elapsed));
        if !ok { return; }
        todo, done := todo - {d}, done + {d};
      }
      ok := true;
    }

    /**
     * Each observed device is recorded READY with its own elapsed time, from an attempt in one of the
     * recorded turns, and the list shows it; and there are no other facts but those from before.
     */
    ghost predicate Recorded(observed: map<string, real>, passes: seq<Pass>)
      reads `readinessResults, `readinessEvidence, `attempts, `prior
    {
      && ReadyFacts(readinessResults, observed, passes, attempts)
      && Allowed(attempts, passes)
      && (observed != map[] ==> readinessEvidence == InScopeOrder(devices, readinessResults))
      && NoOther(readinessResults, prior, observed)
    }

    /** The device, if any, that answered and whose fact was rejected. */
    ghost function LostDevice(): set<string>
      reads `rejected
    {
      if rejected.Some? && rejected.value.verdict == Ready then {rejected.value.name} else {}
    }

    /** The last recorded turn is one that probes these devices, and has not probed any of `todo` yet. */
    ghost predicate Probing(passes: seq<Pass>, started: real, clock: real, deadline: real, todo: set<string>)
      reads `attempts
    {
      && passes != []
      && var turn := |passes| - 1;
         && passes[turn].decision == Probe && passes[turn].at <= clock - started
         && deadline == started + DeadlineAfter(passes[..turn])
         && todo <= passes[turn].remaining && Untried(attempts, turn, todo)
         && Tried(attempts, turn, passes[turn].remaining - todo)
    }

    /** `socket.create_connection`: what the network answers, and when, is logged. */
    method Connect(d: string, started: real, clock: real, ghost turn: nat) returns (connected: bool, t: real)
      modifies `attempts
      ensures t >= clock
      ensures attempts ==
                old(attempts) + [Attempt(d, turn, clock - started, if connected then Some(t - started) else None)]
    {
      t := Now(clock);
      connected := *;
      attempts := attempts + [Attempt(d, turn, clock - started, if connected then Some(t - started) else None)];
    }

    /** One connection attempt, unless the deadline has passed; a connection made past it does not count. */
    method ProbeOne(d: string, started: real, clock: real, deadline: real, ghost passes: seq<Pass>,
                    ghost todo: set<string>)
      returns (probe: ProbeResult, t: real)
      requires Probing(passes, started, clock, deadline, todo) && d in todo && Allowed(attempts, passes)
      modifies `attempts
      ensures t >= clock && Allowed(attempts, passes)
      ensures ProbeMeans(old(attempts), attempts, d, passes, probe, t >= deadline)
      ensures attempts != old(attempts) ==> Probing(passes, started, t, deadline, todo - {d})
      ensures probe == Connected ==> attempts[|attempts| - 1].connected == Some(t - started)
    {
      ghost var turn := |passes| - 1;
      t := Now(clock);
      if deadline - t <= 0.0 { return OutOfTime, t; }
      ghost var before := attempts;
      var connected, later := Connect(d, started, t, turn);
      ghost var a := attempts[|before|];
      OneMoreAttempt(before, passes, a, todo);
      TriedOne(before, a, passes[turn].remaining - todo);
      OneLess(passes[turn].remaining, todo, d);
      t := later;
      if !connected { return NotReached, t; }
      if t > deadline { return OutOfTime, t; }
      return Connected, t;
    }

    /**
     * One probing pass: every remaining device is tried, unless the deadline comes first. Every device found
     * ready before the deadline is recorded; its elapsed time is read after the deadline check, so it may
     * lie past the deadline that admitted it, and past two hours its evidence is rejected.
     */
    method ProbeAll(remaining: set<string>, observed: map<string, real>, started: real, clock: real,
                    deadline: real, states: States, boots: Boots, ghost passes: seq<Pass>)
      returns (left: set<string>, observed': map<string, real>, t: real)
      requires remaining <= states.Keys && remaining <= boots.Keys && rejected == None
      requires Recorded(observed, passes) && Probing(passes, started, clock, deadline, remaining)
      requires Heard(attempts, passes, observed, {})
      requires passes[|passes| - 1] == Pass(clock - started, remaining, states, boots, Probe)
      requires BootsBy(boots, clock - started)
      modifies `readinessResults, `readinessEvidence, `attempts, `rejected
      ensures t >= clock && old(attempts) <= attempts
      ensures Crossed(remaining, observed, left, observed')
      ensures Recorded(observed', passes) && Heard(attempts, passes, observed', LostDevice())
      ensures Updated(old(readinessResults), readinessResults, remaining - left, states, boots)
      ensures rejected.Some? ==> Lost(left, passes)
      ensures rejected == None ==> Tried(attempts, |passes| - 1, remaining) || t >= deadline
    {
      left, observed', t := remaining, observed, clock;
      NothingCrosses(remaining, observed);
      var todo := remaining;
      while todo != {}
        invariant todo <= left <= remaining && t >= clock && rejected == None && old(attempts) <= attempts
        invariant Crossed(remaining, observed, left, observed')
        invariant Recorded(observed', passes) && Heard(attempts, passes, observed', {})
        invariant Probing(passes, started, t, deadline, todo)
        invariant Updated(old(readinessResults), readinessResults, remaining - left, states, boots)
        decreases todo
      {
        var d :| d in todo;
        ghost var before := observed';
        var probe;
        BootsLater(boots, clock - started, t - started);
        probe, observed', t := ProbeNext(d, observed', started, t, deadline, states, boots, passes, todo,
                                         old(readinessResults), remaining - left);
        if rejected.Some? || probe == OutOfTime { return; }
        todo := todo - {d};
        if probe == Connected {
          OneCrosses(remaining, observed, left, before, d, observed'[d]);
          Found(remaining, left, d);
          left := left - {d};
        }
      }
      assert passes[|passes| - 1].remaining - {} == remaining;
    }

    /** The wait ended because a READY fact was rejected: its elapsed time was read more than two hours in. */
    ghost predicate Lost(left: set<string>, passes: seq<Pass>)
      reads `rejected, `attempts
    {
      && rejected.Some? && rejected.value.name in left && attempts != [] && passes != []
      && rejected.value.verdict == Ready && rejected.value.elapsed > MAX_SECONDS
      && passes[|passes| - 1].decision == Probe
      && var a := attempts[|attempts| - 1];
         a.turn == |passes| - 1 && WitnessedBy(rejected.value, passes, a)
    }

    /** One device of the pass: try it, and record it if it answers in time. */
    method ProbeNext(d: string, observed: map<string, real>, started: real, clock: real, deadline: real,
                     states: States, boots: Boots, ghost passes: seq<Pass>, ghost todo: set<string>,
                     ghost before: map<string, Evidence>, ghost found: set<string>)
      returns (probe: ProbeResult, observed': map<string, real>, t: real)
      requires d in todo && d in states && d in boots && rejected == None
      requires Recorded(observed, passes) && Probing(passes, started, clock, deadline, todo)
      requires Heard(attempts, passes, observed, {})
      requires passes[|passes| - 1].states == states && passes[|passes| - 1].boots == boots
      requires BootsBy(boots, clock - started)
      requires Updated(before, readinessResults, found, states, boots)
      modifies `readinessResults, `readinessEvidence, `attempts, `rejected
      ensures t >= clock && old(attempts) <= attempts
      ensures Recorded(observed', passes) && Heard(attempts, passes, observed', LostDevice())
      ensures probe == OutOfTime ==> t >= deadline
      ensures probe != OutOfTime ==> Probing(passes, started, t, deadline, todo - {d})
      ensures rejected == None ==>
                && (probe != Connected ==> observed' == observed)
                && (probe == Connected ==> d in observed' && observed' == observed[d := observed'[d]])
                && Updated(before, readinessResults, if probe == Connected then found + {d} else found, states, boots)
      ensures rejected.Some? ==>
                && probe == Connected && observed' == observed && Lost({d}, passes)
                && Updated(before, readinessResults, found, states, boots)
    {
      ghost var earlier := attempts;
      observed' := observed;
      probe, t := ProbeOne(d, started, clock, deadline, passes, todo);
      FactsLater(readinessResults, observed, passes, earlier, passes, attempts);
      if attempts != earlier {
        HeardOne(earlier, passes, observed, attempts[|earlier|]);
        assert attempts == earlier + [attempts[|earlier|]];
      }
      if probe == Connected {
        t := Now(t);
        var e := Evidence(d, Ready, t - started, states[d], boots[d]);
        assert BootBy(boots, clock - started, d);
        ghost var results := readinessResults;
        var ok := RecordReadiness(e);
        if ok {
          OneMoreFact(results, observed, passes, attempts, e, |attempts| - 1);
          OneMoreUpdate(before, results, found, states, boots, e);
          OneMoreKnown(results, prior, observed, e);
          HeardMore(attempts, passes, observed, d, t - started);
          observed' := observed[d := t - started];
        }
      }
    }

    /** Every device of the scope has one recorded fact, listed in scope order. */
    ghost predicate Partitioned()
      reads `readinessResults, `readinessEvidence
    {
      && |readinessEvidence| == |devices|
      && forall i | 0 <= i < |devices| ::
           && devices[i] in readinessResults && readinessEvidence[i] == readinessResults[devices[i]]
           && readinessEvidence[i].name == devices[i]
    }

    /** Exactly the devices still remaining at the last turn are TIMED_OUT, at that turn's time or the deadline. */
    ghost predicate TimedOutAt(last: Pass)
      reads `readinessResults, `readinessDeadline
    {
      && last.WellFormed()
      && forall d | d in devices ::
           && d in readinessResults
           && (readinessResults[d].verdict == TimedOut <==> d in last.remaining)
           && (d in last.remaining ==>
                 readinessResults[d] ==
                   TimedOutFact(d, last.states, last.boots, RecordedTime(last, readinessDeadline)))
    }

    /** How the loop stopped, on what it knew. */
    ghost predicate StoppedAt(last: Pass, l: Loop)
      reads `readinessDeadline
    {
      && last.decision in {StopForGrace, StopForDeadline} && last.WellFormed()
      && last.remaining == l.remaining && last.states == l.states && last.boots == l.boots
    }

    /** Recording the stop; it completes exactly when the stop is recordable. */
    method GiveUp(l: Loop, elapsed: real, ghost passes: seq<Pass>, ghost last: Pass) returns (ok: bool)
      requires StoppedAt(last, l) && elapsed == RecordedTime(last, readinessDeadline)
      requires readinessDeadline == NORMAL_TIMEOUT || readinessDeadline == MAX_TIMEOUT
      requires l.remaining <= Elements(devices) && l.observed.Keys == Elements(devices) - l.remaining
      requires Recorded(l.observed, passes)
      modifies `readinessResults, `readinessEvidence, `rejected
      ensures ok <==> Recordable(last, readinessDeadline)
      ensures ok ==> Partitioned() && TimedOutAt(last) && rejected == old(rejected)
      ensures !ok ==>
                && rejected.Some? && rejected.value.name in l.remaining && !ValidEvidence(rejected.value)
                && rejected.value == TimedOutFact(rejected.value.name, l.states, l.boots, elapsed)
                && (rejected.value.name in readinessResults ==> rejected.value.name in prior)
      ensures forall d | d in l.observed ::
                d in old(readinessResults) && d in readinessResults && readinessResults[d] == old(readinessResults)[d]
    {
      ReadOff(readinessResults, l.observed, passes, attempts);
      RecordableExactly(last, readinessDeadline);
      ghost var done;
      ok, done := RecordTimedOut(l.remaining, l.states, l.boots, elapsed);
      if ok {
        CompleteScope(devices, readinessResults);
      } else if rejected.value.name in readinessResults {
        assert OldOrObserved(prior, l.observed, rejected.value.name);
      }
    }

    /** The probes of a turn and the sleep after them. */
    method Sweep(remaining: set<string>, observed: map<string, real>, started: real, clock: real,
                 deadline: real, next: real, states: States, boots: Boots, ghost passes: seq<Pass>)
      returns (left: set<string>, observed': map<string, real>, woken: real)
      requires remaining <= states.Keys && remaining <= boots.Keys && rejected == None
      requires Recorded(observed, passes) && Probing(passes, started, clock, deadline, remaining)
      requires Heard(attempts, passes, observed, {})
      requires passes[|passes| - 1] == Pass(clock - started, remaining, states, boots, Probe)
      requires BootsBy(boots, clock - started)
      requires clock < deadline && clock < next
      modifies `readinessResults, `readinessEvidence, `attempts, `rejected
      ensures Crossed(remaining, observed, left, observed')
      ensures Recorded(observed', passes) && Heard(attempts, passes, observed', LostDevice())
      ensures woken >= clock && old(attempts) <= attempts
      ensures rejected.Some? ==> Lost(left, passes)
      ensures rejected == None ==> Tried(attempts, |passes| - 1, remaining) || woken >= deadline
      ensures rejected == None && left != {} ==>
                SleepsLeft(woken, Boundary(deadline, next)) < SleepsLeft(clock, Boundary(deadline, next))
    {
      left, observed', woken := ProbeAll(remaining, observed, started, clock, deadline, states, boots, passes);
      if rejected == None && left != {} {
        woken := Pause(woken, Boundary(deadline, next));
        SleepShrinks(clock, woken, Boundary(deadline, next));
      }
    }

    /** Asking for the node states: what comes back, and when, is logged. */
    method ObserveStates(remaining: set<string>, started: real, clock: real) returns (candidates: States, at: real)
      modifies `readings
      ensures candidates.Keys == remaining && at >= clock
      ensures readings == old(readings) + [Reading(at - started, candidates)]
    {
      candidates := map[];
      var todo := remaining;
      while todo != {}
        invariant todo <= remaining && candidates.Keys == remaining - todo && readings == old(readings)
      {
        var d :| d in todo;
        var state: Option<NodeState> := *;
        candidates := candidates[d := state];
        todo := todo - {d};
      }
      at := Now(clock);
      readings := readings + [Reading(at - started, candidates)];
    }

    /** A due state poll: read the states, remember them, and move to the next grid point. */
    method Poll(remaining: set<string>, started: real, clock: real, states: States, boots: Boots, next: real,
                ghost scope: set<string>)
      returns (states': States, boots': Boots, next': real, at: real, ghost steps: nat)
      requires remaining <= states.Keys && remaining <= boots.Keys && next <= clock
      requires BootsBy(boots, clock - started) && Current(states, boots, scope, readings)
      modifies `readings
      ensures at >= clock && BootsBy(boots', at - started)
      ensures states'.Keys == states.Keys && boots'.Keys == boots.Keys
      ensures Current(states', boots', scope, readings)
      ensures |readings| == |old(readings)| + 1 && old(readings) <= readings
      ensures readings[|old(readings)|].at == at - started && readings[|old(readings)|].states.Keys == remaining
      ensures next' == next + steps as real * STATE_POLL && steps > 0
      ensures at < next' <= at + STATE_POLL
    {
      var candidates;
      candidates, at := ObserveStates(remaining, started, clock);
      BootsLater(boots, clock - started, at - started);
      states', boots' := Absorb(candidates, at - started, states, boots);
      OneMoreReading(states, boots, states', boots', scope, old(readings), Reading(at - started, candidates));
      next', steps := CatchUp(next, at);
    }

    /** The next poll is ten seconds after the last at most, and the first is due at once. */
    ghost predicate Watching(next: real, now: real, started: real)
      reads `readings
    {
      if readings == [] then next == started
      else next <= started + readings[|readings| - 1].at + 10.0 && readings[|readings| - 1].at <= now - started
    }

    /** The start of a turn: poll the states when that is due, then decide. */
    method Turn(remaining: set<string>, started: real, clock: real, deadline: real, states: States, boots: Boots,
                next: real, ghost scope: set<string>)
      returns (states': States, boots': Boots, next': real, now: real, decision: Decision,
               ghost pass: Pass, ghost steps: nat)
      requires remaining != {} && remaining <= states.Keys && remaining <= boots.Keys
      requires deadline == NORMAL_TIMEOUT || deadline == MAX_TIMEOUT
      requires BootsBy(boots, clock - started)
      requires Current(states, boots, scope, readings) && Watching(next, clock, started) && started <= clock
      modifies `readings
      ensures now >= clock && old(readings) <= readings && readings != []
      ensures Current(states', boots', scope, readings) && Watching(next', now, started)
      ensures now - started < readings[|readings| - 1].at + 10.0
      ensures states'.Keys == states.Keys && boots'.Keys == boots.Keys
      ensures pass == Pass(now - started, remaining, states', boots', decision)
      ensures pass.WellFormed() && pass.Justified(deadline)
      ensures next' == next + steps as real * STATE_POLL
      ensures now < next' && (steps > 0 ==> next' <= now + STATE_POLL)
    {
      states', boots', next', steps := states, boots, next, 0;
      now := Now(clock);
      BootsLater(boots, clock - started, now - started);
      if now >= next {
        states', boots', next', now, steps := Poll(remaining, started, now, states, boots, next, scope);
      }
      decision := Judge(now - started, deadline, remaining, states', boots');
      pass := Pass(now - started, remaining, states', boots', decision);
    }

    /** What the loop knows, and the history behind it, whichever way a turn ended. */
    ghost predicate Told(l: Loop, scope: set<string>, passes: seq<Pass>)
      reads `readinessResults, `readinessEvidence, `readinessDeadline, `attempts, `prior, `rejected
    {
      && l.remaining <= scope <= l.states.Keys && scope <= l.boots.Keys
      && Known(l, scope, passes)
      && History(passes) && readinessDeadline == DeadlineAfter(passes)
    }

    /** The loop is to go on, with the deadline in force and the next state poll on its ten-second grid. */
    ghost predicate OnSchedule(l: Loop, started: real, passes: seq<Pass>, ticks: nat)
      reads `readinessDeadline, `attempts, `rejected
    {
      && rejected == None && GoesOn(passes) && BootsBy(l.boots, l.clock - started)
      && l.deadline == started + readinessDeadline
      && l.next == started + ticks as real * STATE_POLL
      && Thorough(attempts, passes, l.clock - started)
      && (passes != [] ==> passes[|passes| - 1].at <= l.clock - started)
    }

    /** The facts recorded so far, and the turns they come from. */
    ghost predicate Known(l: Loop, scope: set<string>, passes: seq<Pass>)
      reads `readinessResults, `readinessEvidence, `attempts, `prior, `rejected
    {
      && Split(scope, l.remaining, l.observed) && Recorded(l.observed, passes)
      && Heard(attempts, passes, l.observed, LostDevice())
      && Linked(scope, passes, l.remaining)
    }

    /** A turn that decided to probe: a sweep of attempts and the sleep after it. */
    method Search(l: Loop, started: real, now: real, ghost scope: set<string>, ghost passes: seq<Pass>,
                  ghost pass: Pass)
      returns (l': Loop)
      requires l.remaining != {} && l.clock <= now < l.next && rejected == None
      requires l.remaining <= scope && l.remaining <= l.states.Keys && l.remaining <= l.boots.Keys
      requires Known(l, scope, passes)
      requires pass == Pass(now - started, l.remaining, l.states, l.boots, Probe)
      requires BootsBy(l.boots, now - started) && Thorough(attempts, passes, l.clock - started)
      requires passes != [] ==> passes[|passes| - 1].at <= pass.at
      requires l.deadline == started + DeadlineAfter(passes) && now < l.deadline
      modifies `readinessResults, `readinessEvidence, `attempts, `rejected
      ensures Known(l', scope, passes + [pass])
      ensures l'.states == l.states && l'.boots == l.boots && l'.deadline == l.deadline && l'.next == l.next
      ensures l'.remaining <= l.remaining && l'.clock >= now
      ensures rejected.Some? ==> Lost(l'.remaining, passes + [pass])
      ensures rejected == None ==> Thorough(attempts, passes + [pass], l'.clock - started)
      ensures rejected == None && l'.remaining != {} ==> l'.Sleeps() < l.Sleeps()
    {
      ghost var passes', before := passes + [pass], attempts;
      OneMoreTurn(attempts, passes, pass, l.remaining);
      FactsLater(readinessResults, l.observed, passes, attempts, passes', attempts);
      LaterSleepsLess(l.clock, now, Boundary(l.deadline, l.next));
      assert passes'[..|passes'| - 1] == passes;
      var left, observed, woken;
      left, observed, woken :=
        Sweep(l.remaining, l.observed, started, now, l.deadline, l.next, l.states, l.boots, passes');
      SplitCrossed(scope, l.remaining, l.observed, left, observed);
      LinkedGrows(scope, passes, l.remaining, pass, left);
      if rejected == None {
        ThoroughGrows(before, passes, l.clock - started, attempts, pass, woken - started);
      }
      l' := l.(remaining := left, observed := observed, clock := woken);
    }

    /** What the loop knows of the nodes is what was read of them, and so it was at every turn so far. */
    ghost predicate Aware(l: Loop, started: real, now: real, scope: set<string>, passes: seq<Pass>)
      reads `readings
    {
      && Current(l.states, l.boots, scope, readings) && Informed(passes, readings, scope)
      && Watching(l.next, now, started) && started <= now
    }

    lemma AwareLater(l: Loop, l': Loop, started: real, now: real, now': real, scope: set<string>, passes: seq<Pass>)
      requires Aware(l, started, now, scope, passes) && now <= now'
      requires l'.states == l.states && l'.boots == l.boots && l'.next == l.next
      ensures Aware(l', started, now', scope, passes)
    {}

    /** The start of a turn, on what the loop knows, and where it puts the loop's schedule. */
    method Begin(l: Loop, started: real, ghost scope: set<string>, ghost passes: seq<Pass>, ghost ticks: nat)
      returns (l': Loop, now: real, decision: Decision, ghost pass: Pass, ghost ticks': nat)
      requires Told(l, scope, passes) && OnSchedule(l, started, passes, ticks) && l.remaining != {}
      requires Aware(l, started, l.clock, scope, passes)
      modifies `readings
      ensures Aware(l', started, now, scope, passes + [pass])
      ensures l'.remaining == l.remaining && l'.observed == l.observed
      ensures l'.deadline == l.deadline && l'.clock == l.clock
      ensures scope <= l'.states.Keys && scope <= l'.boots.Keys && BootsBy(l'.boots, now - started)
      ensures pass == Pass(now - started, l.remaining, l'.states, l'.boots, decision) && pass.WellFormed()
      ensures History(passes + [pass]) && DeadlineAfter(passes + [pass]) ==
                                          if decision == Extend then MAX_TIMEOUT else readinessDeadline
      ensures GoesOn(passes + [pass]) <==> decision in {Probe, Extend}
      ensures l.clock <= now < l'.next && (decision == Probe ==> now < l.deadline)
      ensures decision == Extend ==> readinessDeadline == NORMAL_TIMEOUT
      ensures l'.next == started + ticks' as real * STATE_POLL
      ensures (ticks' == ticks && l'.next == l.next) || (ticks < ticks' && (decision == Probe ==> ticks' <= 30))
    {
      var states, boots, next;
      ghost var steps;
      states, boots, next, now, decision, pass, steps :=
        Turn(l.remaining, started, l.clock, readinessDeadline, l.states, l.boots, l.next, scope);
      InformedGrows(passes, old(readings), readings, scope, pass);
      HistoryGrows(passes, pass);
      ticks' := ticks + steps;
      l' := l.(states := states, boots := boots, next := next);
    }

    /**
     * One turn of the loop, recorded as one pass on what it knew and decided; devices leave only when it
     * decided to probe. If it goes on, something that cannot go on forever has moved: a device was
     * observed, the extension was used, a state poll was passed or a sleep was spent.
     */
    method Round(l: Loop, started: real, ghost scope: set<string>, ghost passes: seq<Pass>, ghost ticks: nat)
      returns (l': Loop, stop: bool, timedOut: real, ghost passes': seq<Pass>, ghost ticks': nat)
      requires Told(l, scope, passes) && OnSchedule(l, started, passes, ticks) && l.remaining != {}
      requires Aware(l, started, l.clock, scope, passes)
      modifies `readinessResults, `readinessEvidence, `readinessDeadline, `attempts, `rejected, `readings
      ensures Informed(passes', readings, scope)
      ensures !stop && rejected == None ==> Aware(l', started, l'.clock, scope, passes')
      ensures |passes'| == |passes| + 1 && passes' == passes + [passes'[|passes|]]
      ensures var pass := passes'[|passes|];
              && pass == Pass(pass.at, l.remaining, l'.states, l'.boots, pass.decision)
              && l.clock - started <= pass.at
              && (l'.remaining != l.remaining ==> pass.decision == Probe)
              && (stop <==> pass.decision in {StopForGrace, StopForDeadline})
      ensures Told(l', scope, passes')
      ensures stop ==>
                && rejected == None && l'.remaining != {} && StoppedAt(passes'[|passes'| - 1], l')
                && timedOut == RecordedTime(passes'[|passes'| - 1], readinessDeadline)
                && Thorough(attempts, passes', l'.clock - started)
      ensures rejected.Some? ==> Lost(l'.remaining, passes')
      ensures !stop && rejected == None ==> OnSchedule(l', started, passes', ticks')
      ensures |l'.remaining| <= |l.remaining|
      ensures old(readinessDeadline) != NORMAL_TIMEOUT ==> readinessDeadline != NORMAL_TIMEOUT
      ensures !stop && rejected == None && l'.remaining != {} ==>
                || (old(readinessDeadline) == NORMAL_TIMEOUT && readinessDeadline != NORMAL_TIMEOUT)
                || ticks < ticks' <= 30 || (ticks' == ticks && l'.Sleeps() < l.Sleeps())
    {
      var now, decision;
      ghost var pass;
      l', now, decision, pass, ticks' := Begin(l, started, scope, passes, ticks);
      passes', stop, timedOut := passes + [pass], false, 0.0;
      ghost var begun := l';
      if decision == Probe {
        l' := Search(l', started, now, scope, passes, pass);
        Subset(l'.remaining, l.remaining);
        BootsLater(l'.boots, now - started, l'.clock - started);
      } else {
        NoProbe(l', scope, passes, pass, started);
        if decision == Extend {
          readinessDeadline := MAX_TIMEOUT;
          l' := l'.(deadline := started + MAX_TIMEOUT, clock := now);
        } else {
          timedOut := if decision == StopForGrace then now - started else l.deadline - started;
          stop := true;
        }
      }
      if !stop { AwareLater(begun, l', started, now, l'.clock, scope, passes'); }
    }

    /** A turn that does not probe adds no fact. */
    lemma NoProbe(l: Loop, scope: set<string>, passes: seq<Pass>, pass: Pass, started: real)
      requires Known(l, scope, passes) && pass.remaining == l.remaining && pass.decision != Probe
      requires passes != [] ==> passes[|passes| - 1].at <= pass.at
      requires Thorough(attempts, passes, l.clock - started) && l.clock - started <= pass.at
      ensures Known(l, scope, passes + [pass])
      ensures forall later :: Thorough(attempts, passes + [pass], later)
    {
      OneMoreTurn(attempts, passes, pass, {});
      FactsLater(readinessResults, l.observed, passes, attempts, passes + [pass], attempts);
      LinkedGrows(scope, passes, l.remaining, pass, l.remaining);
      forall later ensures Thorough(attempts, passes + [pass], later) {
        ThoroughGrows(attempts, passes, l.clock - started, attempts, pass, later);
      }
    }

    /** Turns until nothing remains or the policy stops; the stop itself is recorded by the caller. */
    method RunTurns(scope: set<string>, started: real)
      returns (l: Loop, timedOut: real, ghost passes: seq<Pass>)
      requires readinessDeadline == NORMAL_TIMEOUT && attempts == [] && rejected == None
      requires prior == readinessResults.Keys && readings == []
      modifies `readinessResults, `readinessEvidence, `readinessDeadline, `attempts, `rejected, `readings
      ensures Told(l, scope, passes) && Informed(passes, readings, scope)
      ensures rejected == None && l.remaining == {} ==> GoesOn(passes)
      ensures rejected == None && l.remaining != {} ==>
                && passes != [] && StoppedAt(passes[|passes| - 1], l)
                && timedOut == RecordedTime(passes[|passes| - 1], readinessDeadline)
      ensures rejected == None ==> Thorough(attempts, passes, l.clock - started)
      ensures rejected.Some? ==> Lost(l.remaining, passes)
    {
      l := Loop(scope, map[], map d | d in scope :: None, map d | d in scope :: None, started + NORMAL_TIMEOUT,
                started, started);
      passes, timedOut := [], 0.0;
      ghost var ticks: nat := 0;
      NothingRead(scope);
      while l.remaining != {}
        invariant Told(l, scope, passes) && OnSchedule(l, started, passes, ticks)
        invariant Aware(l, started, l.clock, scope, passes)
        decreases |l.remaining|, readinessDeadline == NORMAL_TIMEOUT, if ticks <= 30 then 30 - ticks else 0, l.Sleeps()
      {
        var stop;
        l, stop, timedOut, passes, ticks := Round(l, started, scope, passes, ticks);
        if stop || rejected.Some? { return; }
      }
    }

    /**
     * The devices with a READY fact are exactly those an attempt counts for; `lost` is the one, if any, that
     * answered and whose fact was rejected.
     */
    ghost predicate ReadyExactly(passes: seq<Pass>, left: set<string>, lost: set<string>)
      reads `readinessResults, `attempts
    {
      && (forall d | d in devices && d !in left ::
            && d in readinessResults && readinessResults[d].name == d && readinessResults[d].verdict == Ready
            && ValidEvidence(readinessResults[d]) && Witnessed(readinessResults[d], passes, attempts))
      && forall k {:trigger Counts(attempts[k], passes)} | 0 <= k < |attempts| && Counts(attempts[k], passes) ::
           attempts[k].device in lost || (attempts[k].device in devices && attempts[k].device !in left)
    }

    lemma KnownReady(l: Loop, passes: seq<Pass>)
      requires Known(l, Elements(devices), passes) && (rejected.Some? ==> rejected.value.verdict == Ready)
      ensures ReadyExactly(passes, l.remaining, LostDevice())
    {
      SplitMeans(Elements(devices), l.remaining, l.observed);
      ReadOff(readinessResults, l.observed, passes, attempts);
    }

    /** The recording of the last turn's stop raised, on a device that has no fact now unless it had one before. */
    ghost predicate Unrecordable(passes: seq<Pass>)
      reads `rejected, `readinessDeadline
    {
      && rejected.Some? && passes != []
      && var last := passes[|passes| - 1];
         && last.decision in {StopForGrace, StopForDeadline} && last.WellFormed()
         && rejected.value.name in last.remaining
         && rejected.value ==
              TimedOutFact(rejected.value.name, last.states, last.boots, RecordedTime(last, readinessDeadline))
    }

    /** The end of a run without a rejected fact: everything was observed, or the stop is to be recorded. */
    method Settle(l: Loop, timedOut: real, ghost passes: seq<Pass>) returns (res: Outcome)
      requires Known(l, Elements(devices), passes) && rejected == None && l.remaining <= Elements(devices)
      requires readinessDeadline == NORMAL_TIMEOUT || readinessDeadline == MAX_TIMEOUT
      requires l.remaining != {} ==>
                 && passes != [] && StoppedAt(passes[|passes| - 1], l)
                 && timedOut == RecordedTime(passes[|passes| - 1], readinessDeadline)
      modifies `readinessResults, `readinessEvidence, `rejected
      ensures ReadyExactly(passes, l.remaining, LostDevice())
      ensures res.AllReady? <==> l.remaining == {}
      ensures res.AllReady? ==>
                && res.observed == l.observed && (devices != [] ==> Partitioned())
                && (forall d | d in devices :: d in readinessResults && readinessResults[d].elapsed == l.observed[d])
      ensures res.GaveUp? ==> Partitioned() && TimedOutAt(passes[|passes| - 1])
      ensures res.EvidenceRejected? <==> rejected.Some?
      ensures rejected.Some? ==>
                && Unrecordable(passes) && !ValidEvidence(rejected.value)
                && (rejected.value.name in readinessResults ==> rejected.value.name in prior)
      ensures l.remaining != {} ==> (res.GaveUp? <==> Recordable(passes[|passes| - 1], readinessDeadline))
    {
      SplitMeans(Elements(devices), l.remaining, l.observed);
      KnownReady(l, passes);
      ReadOff(readinessResults, l.observed, passes, attempts);
      if l.remaining != {} {
        var ok := GiveUp(l, timedOut, passes, passes[|passes| - 1]);
        return if ok then GaveUp else EvidenceRejected;
      }
      if devices != [] {
        assert devices[0] in l.observed;
        CompleteScope(devices, readinessResults);
      }
      return AllReady(l.observed);
    }

    /**
     * `_wait_readiness`. It ends for every pattern of answers. The turns form one chain from the whole scope
     * to what is left, each justified; every connection attempt belongs to one of them, a turn that decided
     * to probe tries every remaining device unless the deadline comes first, and a device has a READY fact
     * exactly when an attempt to it connected by the deadline. When the policy stops, every device left is
     * recorded TIMED_OUT, so that the facts partition the scope, if and only if the stop is recordable.
     * Otherwise the evidence of a device is rejected by its own validator and the device has none.
     */
    method WaitReadiness() returns (res: Outcome, ghost passes: seq<Pass>, ghost left: set<string>, ghost over: real)
      modifies this
      ensures History(passes) && Allowed(attempts, passes) && readinessDeadline == DeadlineAfter(passes)
      ensures Linked(Elements(devices), passes, left)
      ensures Informed(passes, readings, Elements(devices))
      ensures ReadyExactly(passes, left, LostDevice())
      ensures res.AllReady? ==>
                && left == {} && GoesOn(passes) && res.observed.Keys == Elements(devices)
                && (forall d | d in devices :: d in readinessResults && readinessResults[d].elapsed == res.observed[d])
                && (devices != [] ==> Partitioned())
      ensures res.GaveUp? ==>
                && passes != [] && passes[|passes| - 1].decision in {StopForGrace, StopForDeadline}
                && left == passes[|passes| - 1].remaining && Partitioned() && TimedOutAt(passes[|passes| - 1])
      ensures res.EvidenceRejected? <==> rejected.Some?
      ensures res.EvidenceRejected? ==>
                && (Lost(left, passes) || (Unrecordable(passes) && left == passes[|passes| - 1].remaining))
                && rejected.value.name in left && !ValidEvidence(rejected.value)
                && (rejected.value.name in readinessResults ==> rejected.value.name in old(readinessResults))
      ensures passes != [] && passes[|passes| - 1].decision in {StopForGrace, StopForDeadline} ==>
                (res.GaveUp? <==> Recordable(passes[|passes| - 1], readinessDeadline))
      ensures !Lost(left, passes) ==> Thorough(attempts, passes, over)
    {
      var started := Now(0.0);
      readinessDeadline := NORMAL_TIMEOUT;
      rejected, attempts, readings, prior := None, [], [], readinessResults.Keys;
      var l, timedOut;
      l, timedOut, passes := RunTurns(Elements(devices), started);
      SplitMeans(Elements(devices), l.remaining, l.observed);
      left, over := l.remaining, l.clock - started;
      if rejected.Some? {
        KnownReady(l, passes);
        if rejected.value.name in readinessResults {
          assert OldOrObserved(prior, l.observed, rejected.value.name);
        }
        return EvidenceRejected, passes, left, over;
      }
      res := Settle(l, timedOut, passes);
    }
  }
}
