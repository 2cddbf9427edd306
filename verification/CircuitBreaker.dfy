/**
 The circuit breaker. The code between two awaits of exec() runs without interruption, so
 a call is two atomic steps: it starts (and may be refused), and later it settles. Calls
 overlap in any way and may settle long after the circuit has moved on.
 */
module CircuitBreaking {
  import opened Wrappers

  datatype CircuitState = Closed | Open | HalfOpen

  datatype Options = Options(failureThreshold: int, resetTimeoutMs: int, halfOpenSuccesses: int, halfOpenMaxProbes: int)

  /** The fields of the breaker. */
  datatype Circuit = Circuit(
    state: CircuitState, generation: nat, failures: nat,
    nextAttempt: int, successes: nat, probes: int)

  /** What exec() remembers of a call between its start and its settlement. */
  datatype Call = Call(generation: nat, probing: bool)

  const INITIAL_CIRCUIT := Circuit(Closed, 0, 0, 0, 0, 0)

  function Enter(o: Options, c: Circuit, state: CircuitState, now: int): Circuit {
    Circuit(state, c.generation + 1, if state.Closed? then 0 else c.failures,
            if state.Open? then now + o.resetTimeoutMs else c.nextAttempt, 0, 0)
  }

  function OnSuccess(o: Options, c: Circuit, now: int): Circuit {
    var c1 := c.(failures := 0);
    if !c.state.HalfOpen? then c1
    else if c.successes + 1 >= o.halfOpenSuccesses then Enter(o, c1.(successes := c.successes + 1), Closed, now)
    else c1.(successes := c.successes + 1)
  }

  function OnFailure(o: Options, c: Circuit, now: int): Circuit {
    var c1 := c.(failures := c.failures + 1);
    if c.state.HalfOpen? || c1.failures >= o.failureThreshold then Enter(o, c1, Open, now) else c1
  }

  /** exec() up to the call of `fn`: the call that runs, or None when the circuit refuses. */
  function Start(o: Options, c: Circuit, now: int): (Circuit, Option<Call>) {
    if c.state.Open? && now < c.nextAttempt then (c, None)
    else
      var c1 := if c.state.Open? then Enter(o, c, HalfOpen, now) else c;
      if !c1.state.HalfOpen? then (c1, Some(Call(c1.generation, false)))
      else if c1.probes >= o.halfOpenMaxProbes then (c1, None)
      else (c1.(probes := c1.probes + 1), Some(Call(c1.generation, true)))
  }

  /** exec() after `fn` settled; `failed` means an error that isFailure counts. */
  function Settle(o: Options, c: Circuit, call: Call, failed: bool, now: int): Circuit {
    var c1 :=
      if call.generation != c.generation then c
      else if failed then OnFailure(o, c, now) else OnSuccess(o, c, now);
    if call.probing && call.generation == c1.generation then c1.(probes := c1.probes - 1) else c1
  }

  class CircuitBreaker {
    const options: Options
    var state: CircuitState
    var generation: nat
    var failures: nat
    var nextAttemptTs: int
    var halfOpenSuccesses: nat
    var probesInFlight: int

    constructor (options: Options)
      ensures this.options == options && Fields() == INITIAL_CIRCUIT
    {
      this.options := options;
      state, generation, failures, nextAttemptTs, halfOpenSuccesses, probesInFlight := Closed, 0, 0, 0, 0, 0;
    }

    function Fields(): Circuit
      reads this
    {
      Circuit(state, generation, failures, nextAttemptTs, halfOpenSuccesses, probesInFlight)
    }

    method EnterState(next: CircuitState, now: int)
      modifies this
      ensures Fields() == Enter(options, old(Fields()), next, now)
    {
      state := next;
      generation := generation + 1;
      halfOpenSuccesses := 0;
      probesInFlight := 0;
      if next.Open? { nextAttemptTs := now + options.resetTimeoutMs; }
      if next.Closed? { failures := 0; }
    }

    method Succeeded(now: int)
      modifies this
      ensures Fields() == OnSuccess(options, old(Fields()), now)
    {
      failures := 0;
      if state.HalfOpen? {
        halfOpenSuccesses := halfOpenSuccesses + 1;
        if halfOpenSuccesses >= options.halfOpenSuccesses { EnterState(Closed, now); }
      }
    }

    method Failed(now: int)
      modifies this
      ensures Fields() == OnFailure(options, old(Fields()), now)
    {
      failures := failures + 1;
      if state.HalfOpen? || failures >= options.failureThreshold { EnterState(Open, now); }
    }

    method Begin(now: int) returns (call: Option<Call>)
      modifies this
      ensures (Fields(), call) == Start(options, old(Fields()), now)
    {
      if state.Open? {
        if now < nextAttemptTs { return None; }
        EnterState(HalfOpen, now);
      }
      var probing := state.HalfOpen?;
      if probing {
        if probesInFlight >= options.halfOpenMaxProbes { return None; }
        probesInFlight := probesInFlight + 1;
      }
      return Some(Call(generation, probing));
    }

    /** A call that finishes in a later generation changes nothing. */
    method Finish(call: Call, failed: bool, now: int)
      modifies this
      ensures Fields() == Settle(options, old(Fields()), call, failed, now)
      ensures call.generation < old(generation) ==> Fields() == old(Fields())
    {
      if call.generation == generation {
        if failed { Failed(now); } else { Succeeded(now); }
      }
      if call.probing && call.generation == generation { probesInFlight := probesInFlight - 1; }
    }
  }

  // ---- The intended behaviour, told by what calls returned --------------------------------

  /** Per phase, whether each settlement of its calls so far was a counted failure. */
  datatype Phase = ClosedPhase(failed: seq<bool>) | OpenPhase(until: int) | HalfOpenPhase(failed: seq<bool>)

  /** How many failures in a row open a closed circuit (at least one). */
  function Limit(o: Options): nat { if o.failureThreshold < 1 then 1 else o.failureThreshold }

  /** How many successful probes close a half-open circuit (at least one). */
  function Needed(o: Options): nat { if o.halfOpenSuccesses < 1 then 1 else o.halfOpenSuccesses }

  predicate LastFailed(failed: seq<bool>, n: nat) {
    n <= |failed| && forall i :: |failed| - n <= i < |failed| ==> failed[i]
  }

  function PhaseAfter(o: Options, p: Phase, failed: bool, now: int): Phase {
    match p
    case ClosedPhase(h) =>
      if LastFailed(h + [failed], Limit(o)) then OpenPhase(now + o.resetTimeoutMs) else ClosedPhase(h + [failed])
    case HalfOpenPhase(h) =>
      if failed then OpenPhase(now + o.resetTimeoutMs)
      else if |h| + 1 >= Needed(o) then ClosedPhase([])
      else HalfOpenPhase(h + [failed])
    case OpenPhase(_) => p
  }

  function Trailing(failed: seq<bool>): nat {
    if failed == [] || !failed[|failed| - 1] then 0 else 1 + Trailing(failed[..|failed| - 1])
  }

  lemma {:induction false} TrailingCounts(failed: seq<bool>, n: nat)
    ensures LastFailed(failed, n) <==> n <= Trailing(failed)
  {
    if failed != [] && failed[|failed| - 1] && n > 0 {
      var front := failed[..|failed| - 1];
      TrailingCounts(front, n - 1);
      assert forall i :: 0 <= i < |front| ==> front[i] == failed[i];
      if LastFailed(front, n - 1) { assert LastFailed(failed, n); }
    } else if failed != [] && n > 0 {
      assert !failed[|failed| - 1];
    }
  }

  ghost predicate Represents(o: Options, c: Circuit, p: Phase) {
    match p
    case ClosedPhase(h) => c.state.Closed? && c.failures == Trailing(h) && c.failures < Limit(o)
    case OpenPhase(until) => c.state.Open? && c.nextAttempt == until
    case HalfOpenPhase(h) => c.state.HalfOpen? && c.successes == |h| && |h| < Needed(o) && forall f :: f in h ==> !f
  }

  /** The counters decide exactly as the history of the phase does. */
  lemma SettlementFollowsHistory(o: Options, c: Circuit, p: Phase, call: Call, failed: bool, now: int)
    requires Represents(o, c, p) && call.generation == c.generation && !c.state.Open?
    ensures Represents(o, Settle(o, c, call, failed, now), PhaseAfter(o, p, failed, now))
    ensures Settle(o, c, call, failed, now).generation
            == if SameKind(p, PhaseAfter(o, p, failed, now)) then c.generation else c.generation + 1
  {
    if p.ClosedPhase? {
      var h := p.failed + [failed];
      assert h[..|h| - 1] == p.failed;
      TrailingCounts(h, Limit(o));
    }
  }

  // ---- Overlapping calls -----------------------------------------------------------------

  /**
   `running`: calls started and not settled. The history is kept from what is seen of the calls
   alone: `phase`, its number, and the number of the phase each of them started in.
   */
  datatype System = System(circuit: Circuit, running: map<nat, Call>, history: History, now: int)

  datatype History = History(phase: Phase, epoch: nat, joined: map<nat, nat>)

  datatype Event = Starts(id: nat, at: int) | Settles(id: nat, failed: bool, at: int)

  predicate Possible(s: System, e: Event) {
    s.now <= e.at && if e.Starts? then e.id !in s.running else e.id in s.running
  }

  /** Whether it is another phase, or the same with one more settlement. */
  predicate SameKind(p: Phase, q: Phase) {
    (p.ClosedPhase? <==> q.ClosedPhase?) && (p.OpenPhase? <==> q.OpenPhase?)
  }

  function Moved(h: History, phase: Phase): History {
    h.(phase := phase, epoch := if SameKind(h.phase, phase) then h.epoch else h.epoch + 1)
  }

  /** The unsettled calls that joined the phase that lasts now. */
  function Probing(h: History): set<nat> { set id | id in h.joined && h.joined[id] == h.epoch }

  /**
   Whether a call at `at` is let through: while closed, while half-open with probes to spare, and as
   the first probe once an open phase is over, if any probe may run.
   */
  predicate LetThrough(o: Options, h: History, at: int) {
    match h.phase
    case ClosedPhase(_) => true
    case HalfOpenPhase(_) => |Probing(h)| < o.halfOpenMaxProbes
    case OpenPhase(until) => until <= at && 0 < o.halfOpenMaxProbes
  }

  /** A call at `at`: an open phase whose time is over ends, whether the call runs or not. */
  function Began(o: Options, h: History, id: nat, at: int): History {
    var h1 := if h.phase.OpenPhase? && h.phase.until <= at then Moved(h, HalfOpenPhase([])) else h;
    if LetThrough(o, h, at) then h1.(joined := h1.joined[id := h1.epoch]) else h1
  }

  /** A settlement counts in the phase its call started in, and in no later one. */
  function Ended(o: Options, h: History, id: nat, failed: bool, at: int): History {
    var h1 := if id in h.joined && h.joined[id] == h.epoch then Moved(h, PhaseAfter(o, h.phase, failed, at)) else h;
    h1.(joined := h1.joined - {id})
  }

  function Next(o: Options, s: System, e: Event): System
    requires Possible(s, e)
  {
    match e
    case Starts(id, at) =>
      var (c, call) := Start(o, s.circuit, at);
      System(c, if call.Some? then s.running[id := call.value] else s.running, Began(o, s.history, id, at), at)
    case Settles(id, failed, at) =>
      System(Settle(o, s.circuit, s.running[id], failed, at), s.running - {id},
             Ended(o, s.history, id, failed, at), at)
  }

  predicate IsRun(o: Options, s: System, events: seq<Event>)
    decreases |events|
  {
    events == [] || (Possible(s, events[0]) && IsRun(o, Next(o, s, events[0]), events[1..]))
  }

  function RunAll(o: Options, s: System, events: seq<Event>): System
    requires IsRun(o, s, events)
    decreases |events|
  {
    if events == [] then s else RunAll(o, Next(o, s, events[0]), events[1..])
  }

  function InitialSystem(now: int): System { System(INITIAL_CIRCUIT, map[], History(ClosedPhase([]), 0, map[]), now) }

  /** The calls among these that started in a generation. */
  function Of(running: map<nat, Call>, generation: nat): set<nat> {
    set id | id in running && running[id].generation == generation
  }

  /** The unsettled calls of the circuit's current generation. */
  function Current(s: System): set<nat> { Of(s.running, s.circuit.generation) }

  ghost predicate CallsOk(c: Circuit, running: map<nat, Call>) {
    forall id :: id in running ==>
      && running[id].generation <= c.generation
      && (running[id].generation == c.generation ==> !c.state.Open? && running[id].probing == c.state.HalfOpen?)
  }

  ghost predicate ProbesOk(o: Options, c: Circuit, running: map<nat, Call>) {
    && c.probes == (if c.state.HalfOpen? then |Of(running, c.generation)| else 0)
    && (c.probes > 0 ==> c.probes <= o.halfOpenMaxProbes)
  }

  /** The breaker numbers its generations as the history numbers its phases, and stamps each call with its own. */
  ghost predicate Numbered(s: System) {
    && s.history.epoch == s.circuit.generation && s.history.joined.Keys == s.running.Keys
    && forall id :: id in s.running ==> s.history.joined[id] == s.running[id].generation
  }

  ghost predicate Inv(o: Options, s: System) {
    && CallsOk(s.circuit, s.running) && ProbesOk(o, s.circuit, s.running)
    && Represents(o, s.circuit, s.history.phase) && Numbered(s)
  }

  lemma NewGenerationHasNoCalls(c: Circuit, running: map<nat, Call>)
    requires CallsOk(c, running)
    ensures Of(running, c.generation + 1) == {}
  {
  }

  /** Entering a state leaves every unsettled call in an earlier generation. */
  lemma EnterKeepsCalls(o: Options, c: Circuit, state: CircuitState, now: int, running: map<nat, Call>)
    requires CallsOk(c, running)
    ensures var c' := Enter(o, c, state, now); CallsOk(c', running) && ProbesOk(o, c', running)
  {
    NewGenerationHasNoCalls(c, running);
  }

  /** A call let through in the current state. */
  lemma JoinKeepsCalls(o: Options, c: Circuit, running: map<nat, Call>, id: nat)
    requires CallsOk(c, running) && ProbesOk(o, c, running) && id !in running && !c.state.Open?
    requires c.state.HalfOpen? ==> c.probes < o.halfOpenMaxProbes
    ensures var c' := if c.state.HalfOpen? then c.(probes := c.probes + 1) else c;
            var running' := running[id := Call(c.generation, c.state.HalfOpen?)];
            CallsOk(c', running') && ProbesOk(o, c', running')
  {
    var running' := running[id := Call(c.generation, c.state.HalfOpen?)];
    assert Of(running', c.generation) == Of(running, c.generation) + {id};
    assert id !in Of(running, c.generation);
  }

  lemma StartKeepsCalls(o: Options, c: Circuit, running: map<nat, Call>, id: nat, now: int)
    requires CallsOk(c, running) && ProbesOk(o, c, running) && id !in running
    ensures var (c', call) := Start(o, c, now);
            var running' := if call.Some? then running[id := call.value] else running;
            CallsOk(c', running') && ProbesOk(o, c', running')
  {
    if !(c.state.Open? && now < c.nextAttempt) {
      var c1 := if c.state.Open? then Enter(o, c, HalfOpen, now) else c;
      if c.state.Open? { EnterKeepsCalls(o, c, HalfOpen, now, running); }
      if c1.state.HalfOpen? ==> c1.probes < o.halfOpenMaxProbes { JoinKeepsCalls(o, c1, running, id); }
    }
  }

  lemma StartsAsHistorySays(o: Options, s: System, at: int)
    requires Inv(o, s)
    ensures Start(o, s.circuit, at).1.Some? <==> LetThrough(o, s.history, at)
    ensures Current(s) == Probing(s.history)
  {
    assert Current(s) == Probing(s.history);
  }

  lemma StartKeepsHistory(o: Options, s: System, e: Event)
    requires Inv(o, s) && Possible(s, e) && e.Starts?
    ensures Represents(o, Next(o, s, e).circuit, Next(o, s, e).history.phase) && Numbered(Next(o, s, e))
  {
    StartsAsHistorySays(o, s, e.at);
  }

  lemma StartKeepsInv(o: Options, s: System, e: Event)
    requires Inv(o, s) && Possible(s, e) && e.Starts?
    ensures Inv(o, Next(o, s, e))
  {
    StartKeepsHistory(o, s, e);
    StartKeepsCalls(o, s.circuit, s.running, e.id, e.at);
  }

  lemma SettleKeepsInv(o: Options, s: System, e: Event)
    requires Inv(o, s) && Possible(s, e) && e.Settles?
    ensures Inv(o, Next(o, s, e))
  {
    var s' := Next(o, s, e);
    var call := s.running[e.id];
    if call.generation == s.circuit.generation {
      SettlementFollowsHistory(o, s.circuit, s.history.phase, call, e.failed, e.at);
      if s'.circuit.generation == s.circuit.generation {
        assert Current(s') == Current(s) - {e.id};
        assert e.id in Current(s);
      } else {
        NewGenerationHasNoCalls(s.circuit, s.running);
        assert Current(s') == {};
      }
    } else {
      assert Current(s') == Current(s);
    }
  }

  lemma {:induction false} RunKeepsInv(o: Options, s: System, events: seq<Event>)
    requires Inv(o, s) && IsRun(o, s, events)
    ensures Inv(o, RunAll(o, s, events))
    decreases |events|
  {
    if events != [] {
      if events[0].Starts? { StartKeepsInv(o, s, events[0]); } else { SettleKeepsInv(o, s, events[0]); }
      RunKeepsInv(o, Next(o, s, events[0]), events[1..]);
    }
  }

  // ---- Main results ------------------------------------------------------------------

  /**
   For every interleaving: while half-open, probesInFlight is the number of unsettled calls
   of the current generation and never exceeds the limit; otherwise it is 0, and no
   unsettled call belongs to an open generation.
   */
  lemma ProbesAreCounted(o: Options, now: int, events: seq<Event>)
    requires IsRun(o, InitialSystem(now), events)
    ensures var s := RunAll(o, InitialSystem(now), events);
            && s.circuit.probes == (if s.circuit.state.HalfOpen? then |Current(s)| else 0)
            && (s.circuit.state.HalfOpen? && Current(s) != {} ==> |Current(s)| <= o.halfOpenMaxProbes)
            && (s.circuit.state.Open? ==> Current(s) == {})
  {
    assert Current(InitialSystem(now)) == {};
    RunKeepsInv(o, InitialSystem(now), events);
  }

  /**
   For every interleaving, the breaker's state is the one its call history prescribes:
   closed opens exactly when the last `failureThreshold` settlements of its generation
   failed, half-open closes exactly after enough successful probes and no failure.
   */
  lemma StateFollowsHistory(o: Options, now: int, events: seq<Event>)
    requires IsRun(o, InitialSystem(now), events)
    ensures var s := RunAll(o, InitialSystem(now), events);
            var phase := s.history.phase;
            && (s.circuit.state.Closed? <==> phase.ClosedPhase?)
            && (s.circuit.state.Open? <==> phase.OpenPhase?)
            && (phase.OpenPhase? ==> phase.until == s.circuit.nextAttempt)
            && (phase.ClosedPhase? ==> !LastFailed(phase.failed, Limit(o)))
            && (phase.HalfOpenPhase? ==> |phase.failed| < Needed(o) && true !in phase.failed)
            && s.circuit.generation == s.history.epoch
  {
    assert Current(InitialSystem(now)) == {};
    RunKeepsInv(o, InitialSystem(now), events);
    var s := RunAll(o, InitialSystem(now), events);
    if s.history.phase.ClosedPhase? { TrailingCounts(s.history.phase.failed, Limit(o)); }
  }

  /**
   For every interleaving, a call is let through exactly when the history of the calls says so: the
   circuit is closed, or half-open with fewer than the allowed probes unsettled, or its open phase is over.
   */
  lemma CallsRunExactly(o: Options, now: int, events: seq<Event>, id: nat, at: int)
    requires IsRun(o, InitialSystem(now), events)
    requires Possible(RunAll(o, InitialSystem(now), events), Starts(id, at))
    ensures var s := RunAll(o, InitialSystem(now), events);
            var probing := set p | p in s.history.joined && s.history.joined[p] == s.history.epoch;
            id in Next(o, s, Starts(id, at)).running <==>
              || s.history.phase.ClosedPhase?
              || (s.history.phase.HalfOpenPhase? && |probing| < o.halfOpenMaxProbes)
              || (s.history.phase.OpenPhase? && s.history.phase.until <= at && o.halfOpenMaxProbes > 0)
  {
    assert Current(InitialSystem(now)) == {};
    RunKeepsInv(o, InitialSystem(now), events);
    var s := RunAll(o, InitialSystem(now), events);
    StartsAsHistorySays(o, s, at);
    assert Probing(s.history) == set p | p in s.history.joined && s.history.joined[p] == s.history.epoch;
  }

  /**
   For every interleaving, what a settlement does: failures in a row open a closed circuit, one failure
   opens a half-open one and enough successes close it; a call of an earlier phase changes nothing.
   */
  lemma SettlesExactly(o: Options, now: int, events: seq<Event>, id: nat, failed: bool, at: int)
    requires IsRun(o, InitialSystem(now), events)
    requires Possible(RunAll(o, InitialSystem(now), events), Settles(id, failed, at))
    ensures var s := RunAll(o, InitialSystem(now), events);
            var c, h := s.circuit, s.history;
            var c' := Next(o, s, Settles(id, failed, at)).circuit;
            id in h.joined &&
            if h.joined[id] != h.epoch then c' == c
            else
              && !h.phase.OpenPhase?
              && (c'.state.Open? ==> c'.nextAttempt == at + o.resetTimeoutMs)
              && (h.phase.ClosedPhase? ==>
                    var all := h.phase.failed + [failed];
                    var n := if o.failureThreshold > 1 then o.failureThreshold else 1;
                    && (c'.state.Open? <==> n <= |all| && forall i :: |all| - n <= i < |all| ==> all[i])
                    && (c'.state.Open? || c'.state.Closed?))
              && (h.phase.HalfOpenPhase? ==>
                    && (c'.state.Open? <==> failed)
                    && (c'.state.Closed? <==> !failed && |h.phase.failed| + 1 >= o.halfOpenSuccesses))
  {
    assert Current(InitialSystem(now)) == {};
    RunKeepsInv(o, InitialSystem(now), events);
    var s := RunAll(o, InitialSystem(now), events);
    if s.history.joined[id] == s.history.epoch {
      SettlementFollowsHistory(o, s.circuit, s.history.phase, s.running[id], failed, at);
    }
  }

  /** The history's calls are those that run: let through and not settled. */
  lemma JoinedCallsRun(o: Options, now: int, events: seq<Event>)
    requires IsRun(o, InitialSystem(now), events)
    ensures var s := RunAll(o, InitialSystem(now), events); s.history.joined.Keys == s.running.Keys
  {
    assert Current(InitialSystem(now)) == {};
    RunKeepsInv(o, InitialSystem(now), events);
  }

  /** Until nextAttempt an open circuit starts no call, and late settlements leave it as it is. */
  lemma {:induction false} OpenStaysShut(o: Options, s: System, events: seq<Event>)
    requires Inv(o, s) && s.circuit.state.Open? && IsRun(o, s, events)
    requires forall i :: 0 <= i < |events| ==> events[i].at < s.circuit.nextAttempt
    ensures RunAll(o, s, events).circuit == s.circuit
    ensures RunAll(o, s, events).running.Keys <= s.running.Keys
    decreases |events|
  {
    if events != [] {
      var s' := Next(o, s, events[0]);
      assert events[0].at < s.circuit.nextAttempt;
      if events[0].Starts? { StartKeepsInv(o, s, events[0]); } else { SettleKeepsInv(o, s, events[0]); }
      forall i | 0 <= i < |events[1..]| ensures events[1..][i].at < s.circuit.nextAttempt {
        assert events[1..][i] == events[i + 1];
      }
      OpenStaysShut(o, s', events[1..]);
    }
  }
}
