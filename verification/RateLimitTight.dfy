// Runs that reach the limits of what the rate limiter promises: as many admissions as the window bound allows, and a
// refusal after an idle period.
module RateLimitTight {
  import opened Wrappers
  import opened RateLimit
  import opened RateLimitWindow

  function Last(states: seq<State>): State
    requires states != []
  {
    states[|states| - 1]
  }

  /** The requests admitted so far for one client within `[from, to)`. */
  function Tally(limiters: map<string, Limiter>, st: State, scope: string, host: string, from: int, to: int): nat
    requires scope in limiters
  {
    Admitted(OnKey(st.log, KeyOf(scope, host)), limiters[scope].times, from, to)
  }

  predicate Within(t: int, from: int, to: int) {
    from <= t < to
  }

  lemma Extend(limiters: map<string, Limiter>, states: seq<State>, steps: seq<Step>, step: Step)
    returns (states': seq<State>, steps': seq<Step>)
    requires IsRun(limiters, states, steps) && Enabled(limiters, Last(states), step)
    ensures IsRun(limiters, states', steps') && Last(states') == Next(limiters, Last(states), step)
  {
    states', steps' := states + [Next(limiters, Last(states), step)], steps + [step];
    forall i | 0 <= i < |steps'|
      ensures Enabled(limiters, states'[i], steps'[i]) && states'[i + 1] == Next(limiters, states'[i], steps'[i])
    {
      if i < |steps| {
        assert steps'[i] == steps[i];
      }
    }
  }

  lemma IncrTally(limiters: map<string, Limiter>, st: State, scope: string, host: string, from: int, to: int)
    requires scope in limiters
    ensures
      var st' := Next(limiters, st, SendIncr(scope, host));
      Tally(limiters, st', scope, host, from, to) == Tally(limiters, st, scope, host, from, to)
        + if st'.counters[KeyOf(scope, host)].count <= limiters[scope].times && Within(st.now, from, to) then 1 else 0
  {
    var key, st' := KeyOf(scope, host), Next(limiters, st, SendIncr(scope, host));
    var hit := Hit(key, st.now, st'.counters[key].count);
    OnKeyAppend(st.log, hit, key);
    assert (OnKey(st.log, key) + [hit])[..|OnKey(st.log, key)|] == OnKey(st.log, key);
  }

  /** The first request of a counter, with its EXPIRE. */
  lemma Open(limiters: map<string, Limiter>, states: seq<State>, steps: seq<Step>, scope: string, host: string,
             from: int, to: int)
    returns (states': seq<State>, steps': seq<Step>)
    requires scope in limiters && limiters[scope].times >= 1 && limiters[scope].seconds >= 1
    requires IsRun(limiters, states, steps) && !Alive(Last(states).counters, KeyOf(scope, host), Last(states).now)
    ensures IsRun(limiters, states', steps') && Last(states').now == Last(states).now
    ensures Counts(Last(states'), KeyOf(scope, host), 1, Some(Last(states).now + Gap(limiters, scope)))
    ensures Tally(limiters, Last(states'), scope, host, from, to)
              == Tally(limiters, Last(states), scope, host, from, to)
                 + if Within(Last(states).now, from, to) then 1 else 0
  {
    var key := KeyOf(scope, host);
    IncrTally(limiters, Last(states), scope, host, from, to);
    states', steps' := Extend(limiters, states, steps, SendIncr(scope, host));
    assert Last(states').counters[key] == Counter(1, None) && (scope, key) in Last(states').pending;
    states', steps' := Extend(limiters, states', steps', SendExpire(scope, key));
  }

  predicate Counts(st: State, key: string, count: int, deadline: Option<int>) {
    key in st.counters && st.counters[key] == Counter(count, deadline)
  }

  /** `n` more requests at one instant, all within the limit. */
  lemma {:induction false} Burst(limiters: map<string, Limiter>, states: seq<State>, steps: seq<Step>, scope: string,
                                 host: string, from: int, to: int, n: nat, count: nat, deadline: Option<int>)
    returns (states': seq<State>, steps': seq<Step>)
    requires scope in limiters && 1 <= count && count + n <= limiters[scope].times
    requires IsRun(limiters, states, steps) && Counts(Last(states), KeyOf(scope, host), count, deadline)
    requires deadline.Some? ==> Last(states).now < deadline.value
    ensures IsRun(limiters, states', steps') && Last(states').now == Last(states).now
    ensures Counts(Last(states'), KeyOf(scope, host), count + n, deadline)
    ensures Tally(limiters, Last(states'), scope, host, from, to)
              == Tally(limiters, Last(states), scope, host, from, to)
                 + if Within(Last(states).now, from, to) then n else 0
    decreases n
  {
    states', steps' := states, steps;
    if n > 0 {
      IncrTally(limiters, Last(states), scope, host, from, to);
      states', steps' := Extend(limiters, states, steps, SendIncr(scope, host));
      states', steps' := Burst(limiters, states', steps', scope, host, from, to, n - 1, count + 1, deadline);
    }
  }

  /** `m` full periods in a row, each admitting `times` requests at its very start. */
  lemma {:induction false} Periods(limiters: map<string, Limiter>, states: seq<State>, steps: seq<Step>, scope: string,
                                   host: string, from: int, to: int, m: nat)
    returns (states': seq<State>, steps': seq<Step>)
    requires scope in limiters && limiters[scope].times >= 1 && limiters[scope].seconds >= 1
    requires IsRun(limiters, states, steps) && !Alive(Last(states).counters, KeyOf(scope, host), Last(states).now)
    requires from <= Last(states).now && Last(states).now + m * Gap(limiters, scope) < to + Gap(limiters, scope)
    ensures IsRun(limiters, states', steps')
    ensures Tally(limiters, Last(states'), scope, host, from, to)
              == Tally(limiters, Last(states), scope, host, from, to) + m * limiters[scope].times
    decreases m
  {
    states', steps' := states, steps;
    if m > 0 {
      var gap, start := Gap(limiters, scope), Last(states).now;
      FirstPeriodFits(m, gap, start, to);
      states', steps' := Open(limiters, states, steps, scope, host, from, to);
      states', steps' :=
        Burst(limiters, states', steps', scope, host, from, to, limiters[scope].times - 1, 1, Some(start + gap));
      states', steps' := Extend(limiters, states', steps', Tick(gap));
      states', steps' := Periods(limiters, states', steps', scope, host, from, to, m - 1);
      assert m * limiters[scope].times == (m - 1) * limiters[scope].times + limiters[scope].times;
    }
  }

  lemma FirstPeriodFits(m: nat, gap: nat, start: int, to: int)
    requires m > 0 && start + m * gap < to + gap
    ensures start < to && start + gap + (m - 1) * gap < to + gap
  {
    assert m * gap == gap + (m - 1) * gap;
    assert (m - 1) * gap >= 0;
  }

  /**
   * Some run admits one less than `(m + 1) * times` requests of one client within `m` periods, the most that
   * `AdmittedPerWindow` allows: a counter's remaining requests come at the end of its lifetime, and the following
   * counters' requests as soon as each can be created.
   */
  lemma WindowBoundReached(limiters: map<string, Limiter>, scope: string, host: string, m: nat)
    returns (states: seq<State>, steps: seq<Step>, from: int)
    requires scope in limiters && limiters[scope].times >= 1 && limiters[scope].seconds >= 1 && m >= 1
    ensures IsRun(limiters, states, steps)
    ensures Tally(limiters, Last(states), scope, host, from, from + m * (limiters[scope].seconds * SECOND))
              == (m + 1) * limiters[scope].times - 1
  {
    var gap, times := Gap(limiters, scope), limiters[scope].times;
    from := gap - 1;
    var to := from + m * gap;
    assert m * gap == gap + (m - 1) * gap && (m - 1) * gap >= 0;
    states, steps := [State(map[], multiset{}, 0, [])], [];
    states, steps := Open(limiters, states, steps, scope, host, from, to);
    states, steps := Extend(limiters, states, steps, Tick(gap - 1));
    states, steps := Burst(limiters, states, steps, scope, host, from, to, times - 1, 1, Some(gap));
    states, steps := Extend(limiters, states, steps, Tick(1));
    states, steps := Periods(limiters, states, steps, scope, host, from, to, m);
    assert m * times + times == (m + 1) * times;
  }

  /** A refusal with nothing admitted for the client in the preceding period. */
  ghost predicate RefusedAfterIdling(limiters: map<string, Limiter>, st: State, scope: string, host: string)
    requires scope in limiters
  {
    var hits, times := OnKey(st.log, KeyOf(scope, host)), limiters[scope].times;
    && hits != [] && hits[|hits| - 1].current > times
    && var at := hits[|hits| - 1].at;
       Admitted(hits, times, at - limiters[scope].seconds * SECOND + 1, at + 1) == 0
  }

  /**
   * While its EXPIRE is delayed a counter does not end: whatever the limit, some run refuses a request although the
   * client has been idle for a whole period.
   */
  lemma DelayedExpireRefuses(limiters: map<string, Limiter>, scope: string, host: string)
    returns (states: seq<State>, steps: seq<Step>)
    requires scope in limiters && limiters[scope].times >= 1 && limiters[scope].seconds >= 1
    ensures IsRun(limiters, states, steps) && RefusedAfterIdling(limiters, Last(states), scope, host)
  {
    var key, gap, times := KeyOf(scope, host), Gap(limiters, scope), limiters[scope].times;
    states, steps := [State(map[], multiset{}, 0, [])], [];
    IncrTally(limiters, Last(states), scope, host, 1, gap + 1);
    states, steps := Extend(limiters, states, steps, SendIncr(scope, host));
    states, steps := Burst(limiters, states, steps, scope, host, 1, gap + 1, times - 1, 1, None);
    states, steps := Extend(limiters, states, steps, Tick(gap));
    var idle := Last(states);
    IncrTally(limiters, idle, scope, host, 1, gap + 1);
    states, steps := Extend(limiters, states, steps, SendIncr(scope, host));
    OnKeyAppend(idle.log, Hit(key, gap, times + 1), key);
  }
}
