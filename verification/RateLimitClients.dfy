// What the rate limiter promises to the clients of requests: each is counted by its own address.
module RateLimitClients {
  import opened Wrappers
  import opened RateLimit
  import opened RateLimitWindow

  /** A request arrives from a client address, or without one. */
  datatype ClientStep =
    | Pass(micros: nat)
    | Arrive(scope: string, client: Option<string>)
    | Finish(scope: string, key: string)

  function StepOf(step: ClientStep): Step {
    match step
    case Pass(micros) => Tick(micros)
    case Arrive(scope, client) => SendIncr(scope, Host(client))
    case Finish(scope, key) => SendExpire(scope, key)
  }

  function StepsOf(steps: seq<ClientStep>): (mapped: seq<Step>)
    ensures |mapped| == |steps| && forall i :: 0 <= i < |steps| ==> mapped[i] == StepOf(steps[i])
  {
    seq(|steps|, i requires 0 <= i < |steps| => StepOf(steps[i]))
  }

  ghost predicate IsClientRun(limiters: map<string, Limiter>, states: seq<State>, steps: seq<ClientStep>) {
    IsRun(limiters, states, StepsOf(steps))
  }

  /** Requests without an address count as coming from one that reads "unknown"; otherwise addresses are compared. */
  predicate SameClient(a: Option<string>, b: Option<string>) {
    a == b || (a == None && b == Some("unknown")) || (a == Some("unknown") && b == None)
  }

  lemma HostsTellClientsApart(a: Option<string>, b: Option<string>)
    ensures Host(a) == Host(b) <==> SameClient(a, b)
  {
  }

  predicate ComesFrom(step: ClientStep, scope: string, client: Option<string>) {
    step.Arrive? && step.scope == scope && SameClient(step.client, client)
  }

  /** The answers that requests of this client to this limiter got in the first `i` steps of a run. */
  function AnswersTo(states: seq<State>, steps: seq<ClientStep>, i: nat, scope: string,
                     client: Option<string>)
    : seq<Hit>
    requires i <= |steps| && |states| == |steps| + 1
  {
    if i == 0 then
      []
    else
      var before, after := AnswersTo(states, steps, i - 1, scope, client), states[i].log;
      if ComesFrom(steps[i - 1], scope, client) && after != [] then before + [after[|after| - 1]] else before
  }

  lemma AnswersStep(limiters: map<string, Limiter>, st: State, step: ClientStep, scope: string, client: Option<string>)
    requires PrefixFree(limiters) && scope in limiters && Enabled(limiters, st, StepOf(step))
    ensures
      var (key, after) := (KeyOf(scope, Host(client)), Next(limiters, st, StepOf(step)).log);
      if ComesFrom(step, scope, client) then
        after != [] && OnKey(after, key) == OnKey(st.log, key) + [after[|after| - 1]]
      else
        OnKey(after, key) == OnKey(st.log, key)
  {
    if step.Arrive? {
      var after := Next(limiters, st, StepOf(step)).log;
      OnKeyAppend(st.log, after[|st.log|], KeyOf(scope, Host(client)));
      KeysDistinct(scope, Host(client), step.scope, Host(step.client));
      HostsTellClientsApart(step.client, client);
    }
  }

  /** In every run the hits under a client's key are the answers to that client's own requests, and to no other's. */
  lemma {:induction false} HitsAreAnswers(limiters: map<string, Limiter>, states: seq<State>, steps: seq<ClientStep>,
                                          i: nat, scope: string, client: Option<string>)
    requires PrefixFree(limiters) && scope in limiters
    requires IsClientRun(limiters, states, steps) && i < |states|
    ensures AnswersTo(states, steps, i, scope, client) == OnKey(states[i].log, KeyOf(scope, Host(client)))
  {
    if i > 0 {
      HitsAreAnswers(limiters, states, steps, i - 1, scope, client);
      assert StepsOf(steps)[i - 1] == StepOf(steps[i - 1]);
      assert states[i - 1 + 1] == Next(limiters, states[i - 1], StepOf(steps[i - 1]));
      AnswersStep(limiters, states[i - 1], steps[i - 1], scope, client);
    }
  }

  /** `AdmittedPerWindow`, for a client: its own admitted requests within any window of `m` periods. */
  lemma ClientAdmittedPerWindow(limiters: map<string, Limiter>, states: seq<State>, steps: seq<ClientStep>, i: nat,
                                scope: string, client: Option<string>, from: int, m: nat)
    requires PrefixFree(limiters) && scope in limiters
    requires IsClientRun(limiters, states, steps) && i < |states|
    ensures
      var times, width := limiters[scope].times, m * (limiters[scope].seconds * SECOND);
      var admitted := Admitted(AnswersTo(states, steps, i, scope, client), times, from, from + width);
      admitted <= m * Cap(times) + if Cap(times) > 0 then Cap(times) - 1 else 0
  {
    HitsAreAnswers(limiters, states, steps, i, scope, client);
    AdmittedPerWindow(limiters, states, StepsOf(steps), i, scope, Host(client), from, m);
  }

  /** If the last of these requests was refused: `times` were admitted in its last period iff its counter is younger. */
  predicate JustifiedIffYoung(hits: seq<Hit>, times: int, gap: int) {
    hits != [] && 1 <= times < hits[|hits| - 1].current ==>
      var at := hits[|hits| - 1].at;
      Admitted(hits, times, at - gap + 1, at + 1) >= times <==> Start(hits) > at - gap
  }

  lemma SpacedJustified(hits: seq<Hit>, times: int, gap: int)
    requires Spaced(hits, gap)
    ensures JustifiedIffYoung(hits, times, gap)
  {
    if hits != [] && 1 <= times < hits[|hits| - 1].current {
      RefusalJustified(hits, gap, times);
    }
  }

  /**
   * `RefusalJustifiedIff`, for a client: a refusal is preceded by `times` admitted requests of that very client if and
   * only if its counter is younger than one period. Other clients' requests never refuse it.
   */
  lemma ClientRefusalJustifiedIff(limiters: map<string, Limiter>, states: seq<State>, steps: seq<ClientStep>, i: nat,
                                  scope: string, client: Option<string>)
    requires PrefixFree(limiters) && scope in limiters
    requires IsClientRun(limiters, states, steps) && i < |states|
    ensures JustifiedIffYoung(AnswersTo(states, steps, i, scope, client), limiters[scope].times,
                              limiters[scope].seconds * SECOND)
  {
    HitsAreAnswers(limiters, states, steps, i, scope, client);
    RunInvariant(limiters, states, StepsOf(steps), i, scope, Host(client));
    SpacedJustified(OnKey(states[i].log, KeyOf(scope, Host(client))), limiters[scope].times, Gap(limiters, scope));
  }

  /** The first `times` requests a client makes at a limiter are admitted, whatever the other clients do. */
  lemma FirstRequestsAdmitted(limiters: map<string, Limiter>, states: seq<State>, steps: seq<ClientStep>, i: nat,
                              scope: string, client: Option<string>, k: nat)
    requires PrefixFree(limiters) && scope in limiters
    requires IsClientRun(limiters, states, steps) && i < |states|
    requires k < |AnswersTo(states, steps, i, scope, client)| && k < limiters[scope].times
    ensures AnswersTo(states, steps, i, scope, client)[k].current <= limiters[scope].times
  {
    HitsAreAnswers(limiters, states, steps, i, scope, client);
    RunInvariant(limiters, states, StepsOf(steps), i, scope, Host(client));
    CountsAtMost(AnswersTo(states, steps, i, scope, client), Gap(limiters, scope), k);
  }

  /** A count never exceeds the number of hits so far. */
  lemma {:induction false} CountsAtMost(hits: seq<Hit>, gap: int, k: nat)
    requires Spaced(hits, gap) && k < |hits|
    ensures hits[k].current <= k + 1
    decreases |hits|
  {
    var n := |hits| - 1;
    if k < n {
      CountsAtMost(hits[..n], gap, k);
    } else if n > 0 {
      CountsAtMost(hits[..n], gap, n - 1);
    }
  }

  /** Serving one address counts it under its own key, and leaves every other address's counter as it was. */
  lemma AddressesCountSeparately(limiters: map<string, Limiter>, st: State, scope: string, a: string, b: string)
    requires scope in limiters && a != b
    ensures
      var after := Serve(limiters, st, scope, Host(Some(a))).0.counters;
      var (own, other) := ("ratelimit:" + scope + ":" + a, "ratelimit:" + scope + ":" + b);
      && CountedOnce(st.counters, after, own, limiters[scope].seconds, st.now)
      && (other in after <==> other in st.counters)
      && (other in after ==> after[other] == st.counters[other])
  {
    var own, other := KeyOf(scope, a), KeyOf(scope, b);
    KeysDistinct(scope, a, scope, b);
    ServeCountsOnce(limiters, st, scope, a);
    var after := Serve(limiters, st, scope, a).0.counters;
    assert other in after <==> other in after - {own};
    assert other in st.counters <==> other in st.counters - {own};
  }
}
