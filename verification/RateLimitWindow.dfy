// What the rate limiter promises over every run and every window of time.
module RateLimitWindow {
  import opened Wrappers
  import opened RateLimit

  /** The limit as a count of requests: a negative limit admits as many as zero does. */
  function Cap(times: int): nat {
    if times < 0 then 0 else times
  }

  function Min(a: int, b: int): int {
    if a < b then a else b
  }

  // ---------- the hits on one key ----------

  function OnKey(log: seq<Hit>, key: string): (hits: seq<Hit>) {
    if log == [] then
      []
    else
      var last := log[|log| - 1];
      OnKey(log[..|log| - 1], key) + if last.key == key then [last] else []
  }

  lemma OnKeyAppend(log: seq<Hit>, hit: Hit, key: string)
    ensures OnKey(log + [hit], key) == OnKey(log, key) + if hit.key == key then [hit] else []
  {
    assert (log + [hit])[..|log|] == log;
  }

  /** When the counter that answered the last hit was created: the time of the last hit with count 1. */
  function Start(hits: seq<Hit>): int
    requires hits != []
  {
    var n := |hits| - 1;
    if n == 0 || hits[n].current == 1 then hits[n].at else Start(hits[..n])
  }

  /** The hits answered by the same counter as the last one. */
  function Lifetime(hits: seq<Hit>): seq<Hit>
    requires hits != []
  {
    var n := |hits| - 1;
    if n == 0 || hits[n].current == 1 then [hits[n]] else Lifetime(hits[..n]) + [hits[n]]
  }

  /**
   * Counts run 1, 2, 3, ... through each counter's lifetime, times do not decrease, and a new counter is
   * created at least `gap` after the previous one.
   */
  ghost predicate Spaced(hits: seq<Hit>, gap: int) {
    hits == [] ||
    var n := |hits| - 1;
    && Spaced(hits[..n], gap)
    && (if n == 0 then hits[n].current == 1
        else
          && hits[n - 1].at <= hits[n].at
          && (hits[n].current == hits[n - 1].current + 1 > 1
              || (hits[n].current == 1 && hits[n].at >= Start(hits[..n]) + gap)))
  }

  function Admitted(hits: seq<Hit>, times: int, from: int, to: int): nat {
    if hits == [] then
      0
    else
      var n := |hits| - 1;
      Admitted(hits[..n], times, from, to) + if hits[n].current <= times && from <= hits[n].at < to then 1 else 0
  }

  /** Counters created inside the window. */
  function Created(hits: seq<Hit>, from: int, to: int): nat {
    if hits == [] then
      0
    else
      var n := |hits| - 1;
      Created(hits[..n], from, to) + if hits[n].current == 1 && from <= hits[n].at < to then 1 else 0
  }

  lemma {:induction false} StartBounds(hits: seq<Hit>, gap: int)
    requires hits != [] && Spaced(hits, gap)
    ensures Start(hits) <= hits[|hits| - 1].at
    ensures hits[|hits| - 1].current >= 1
  {
    var n := |hits| - 1;
    if n > 0 {
      StartBounds(hits[..n], gap);
    }
  }

  /** Each lifetime admits exactly its first `times` requests, all of them if there are fewer. */
  lemma {:induction false} LifetimeCounts(hits: seq<Hit>, gap: int)
    requires hits != [] && Spaced(hits, gap)
    ensures |Lifetime(hits)| == hits[|hits| - 1].current
    ensures forall i :: 0 <= i < |Lifetime(hits)| ==> Lifetime(hits)[i].current == i + 1
    ensures Lifetime(hits)[0].at == Start(hits)
  {
    var n := |hits| - 1;
    if n > 0 {
      StartBounds(hits[..n], gap);
      if hits[n].current != 1 {
        LifetimeCounts(hits[..n], gap);
      }
    }
  }

  /** What a window has admitted, while the counter created at `Start(hits)` is still answering. */
  ghost predicate WindowClaim(hits: seq<Hit>, gap: int, times: int, from: int, to: int)
    requires hits != []
  {
    var limit, created, admitted := Cap(times), Created(hits, from, to), Admitted(hits, times, from, to);
    var spill := if limit > 0 then limit - 1 else 0;
    var served := Min(hits[|hits| - 1].current, limit);
    && (created > 0 ==> from < to && from + (created - 1) * gap < to)
    && admitted <= created * limit + spill
    && (hits[|hits| - 1].at < from ==> admitted == 0)
    && (Start(hits) < from ==> created == 0 && admitted <= if limit > 0 then served - 1 else 0)
    && (from <= Start(hits) < to ==>
          && created > 0 && from + (created - 1) * gap <= Start(hits)
          && admitted <= (created - 1) * limit + served + spill)
  }

  lemma {:induction false} WindowInduction(hits: seq<Hit>, gap: int, times: int, from: int, to: int)
    requires hits != [] && Spaced(hits, gap)
    ensures WindowClaim(hits, gap, times, from, to)
  {
    var n := |hits| - 1;
    if n == 0 {
      FirstHit(hits, gap, times, from, to);
    } else {
      var before := hits[..n];
      assert hits == before + [hits[n]];
      StartBounds(before, gap);
      WindowInduction(before, gap, times, from, to);
      if hits[n].current == 1 {
        NextLifetime(before, hits[n], gap, times, from, to);
      } else {
        SameLifetime(before, hits[n], gap, times, from, to);
      }
    }
  }

  lemma FirstHit(hits: seq<Hit>, gap: int, times: int, from: int, to: int)
    requires |hits| == 1 && hits[0].current == 1
    ensures WindowClaim(hits, gap, times, from, to)
  {
    assert Created(hits[..0], from, to) == 0 && Admitted(hits[..0], times, from, to) == 0;
  }

  /** One more hit of the same counter creates nothing, and is admitted if the limit is not reached. */
  lemma SameLifetime(before: seq<Hit>, hit: Hit, gap: int, times: int, from: int, to: int)
    requires before != [] && WindowClaim(before, gap, times, from, to)
    requires Start(before) <= before[|before| - 1].at <= hit.at
    requires hit.current == before[|before| - 1].current + 1 > 1
    ensures WindowClaim(before + [hit], gap, times, from, to)
  {
    var hits := before + [hit];
    assert hits[..|before|] == before;
    Unfold(Created(before, from, to), Cap(times));
    assert Created(hits, from, to) == Created(before, from, to) && Start(hits) == Start(before);
    assert Admitted(hits, times, from, to) == Admitted(before, times, from, to)
      + if hit.current <= times && from <= hit.at < to then 1 else 0;
  }

  /** A new counter: the window gains at most one creation, `gap` after the previous one. */
  lemma NextLifetime(before: seq<Hit>, hit: Hit, gap: int, times: int, from: int, to: int)
    requires before != [] && WindowClaim(before, gap, times, from, to)
    requires Start(before) <= before[|before| - 1].at <= hit.at && hit.current == 1
    requires hit.at >= Start(before) + gap && before[|before| - 1].current >= 1
    ensures WindowClaim(before + [hit], gap, times, from, to)
  {
    var hits := before + [hit];
    assert hits[..|before|] == before;
    var c, limit, admitted := Created(before, from, to), Cap(times), Admitted(before, times, from, to);
    var inside := from <= hit.at < to;
    assert Created(hits, from, to) == if inside then c + 1 else c;
    assert Admitted(hits, times, from, to) == if inside && limit > 0 then admitted + 1 else admitted;
    if inside {
      Unfold(c, gap);
      Unfold(c, limit);
      if c == 0 {
        assert admitted <= if limit > 0 then limit - 1 else 0;
      } else {
        assert from + c * gap <= hit.at;
      }
      assert c + 1 - 1 == c;
    }
  }

  lemma Unfold(c: nat, x: int)
    ensures (c + 1) * x == c * x + x
    ensures (c - 1) * x == c * x - x
  {
  }

  /** With counters at least `gap` apart, a window of `m` gaps admits fewer than `(m + 1) * times` requests. */
  lemma WindowBound(hits: seq<Hit>, gap: int, times: int, from: int, m: nat)
    requires Spaced(hits, gap)
    ensures Admitted(hits, times, from, from + m * gap) <= m * Cap(times)
      + (if Cap(times) > 0 then Cap(times) - 1 else 0)
  {
    if hits != [] {
      var to := from + m * gap;
      WindowInduction(hits, gap, times, from, to);
      var c := Created(hits, from, to);
      CreatedAtMost(c, m, gap);
      MoreFactor(c, m, Cap(times));
    }
  }

  /** Creations `gap` apart, the last of them within `m` gaps of the first. */
  lemma CreatedAtMost(c: nat, m: nat, gap: int)
    requires c > 0 ==> 0 < m * gap && (c - 1) * gap < m * gap
    ensures c <= m
  {
    ProductSign(m, -gap);
    ProductSign(c - 1 - m, gap);
    assert (c - 1 - m) * gap == (c - 1) * gap - m * gap;
  }

  lemma ProductSign(a: int, b: int)
    ensures a >= 0 && b >= 0 ==> a * b >= 0
  {
  }

  lemma MoreFactor(a: nat, b: nat, factor: nat)
    requires a <= b
    ensures a * factor <= b * factor
  {
    assert b * factor == a * factor + (b - a) * factor;
  }

  /** A lifetime inside the window admits its first `times` hits there. */
  lemma {:induction false} LifetimeAdmitted(hits: seq<Hit>, gap: int, times: int, from: int, to: int)
    requires hits != [] && Spaced(hits, gap)
    requires from <= Start(hits) && hits[|hits| - 1].at < to
    ensures Admitted(hits, times, from, to) >= Min(hits[|hits| - 1].current, Cap(times))
  {
    var n := |hits| - 1;
    StartBounds(hits, gap);
    if n > 0 && hits[n].current != 1 {
      LifetimeAdmitted(hits[..n], gap, times, from, to);
    }
  }

  // ---------- one limiter and one host ----------

  /** What the state says about one key: its counter, the requests about to send its EXPIRE, and its hits. */
  datatype View = View(key: string, counter: Option<Counter>, waiting: nat, hits: seq<Hit>, now: int)

  function ViewOf(st: State, scope: string, key: string): View {
    View(key, if key in st.counters then Some(st.counters[key]) else None, st.pending[(scope, key)],
         OnKey(st.log, key), st.now)
  }

  predicate Answering(v: View) {
    v.counter.Some? && (v.counter.value.deadline.Some? ==> v.now < v.counter.value.deadline.value)
  }

  function ViewIncr(v: View): View {
    if Answering(v) then
      var count := v.counter.value.count + 1;
      v.(counter := Some(v.counter.value.(count := count)),
         waiting := if count == 1 then v.waiting + 1 else v.waiting,
         hits := v.hits + [Hit(v.key, v.now, count)])
    else
      v.(counter := Some(Counter(1, None)), waiting := v.waiting + 1, hits := v.hits + [Hit(v.key, v.now, 1)])
  }

  function ViewExpire(v: View, gap: int): View
    requires v.waiting > 0
  {
    v.(counter := if Answering(v) then Some(v.counter.value.(deadline := Some(v.now + gap))) else v.counter,
       waiting := v.waiting - 1)
  }

  /**
   * A counter without a deadline has exactly one request about to send its EXPIRE, and a deadline lies at least
   * the limiter's period after the counter's creation.
   */
  ghost predicate ViewInv(v: View, gap: int) {
    && Spaced(v.hits, gap)
    && if v.hits == [] then
         v.counter == None && v.waiting == 0
       else
         && v.counter.Some?
         && v.counter.value.count == v.hits[|v.hits| - 1].current
         && v.hits[|v.hits| - 1].at <= v.now
         && match v.counter.value.deadline
            case None => v.waiting == 1
            case Some(deadline) => v.waiting == 0 && deadline >= Start(v.hits) + gap
  }

  lemma ViewIncrKeepsInv(v: View, gap: int)
    requires ViewInv(v, gap)
    ensures ViewInv(ViewIncr(v), gap)
  {
    var v' := ViewIncr(v);
    assert v'.hits[..|v.hits|] == v.hits;
    if v.hits != [] {
      StartBounds(v.hits, gap);
    }
  }

  lemma ViewExpireKeepsInv(v: View, gap: int)
    requires ViewInv(v, gap) && v.waiting > 0
    ensures ViewInv(ViewExpire(v, gap), gap)
  {
    if v.hits != [] {
      StartBounds(v.hits, gap);
    }
  }

  // ---------- invariants of every interleaving ----------

  /** Every EXPIRE still to be sent was caused by a request of one of the limiters. */
  ghost predicate PendingInv(limiters: map<string, Limiter>, st: State) {
    forall p :: p in st.pending ==> p.0 in limiters && exists host :: p.1 == KeyOf(p.0, host)
  }

  function Gap(limiters: map<string, Limiter>, scope: string): int
    requires scope in limiters
  {
    limiters[scope].seconds * SECOND
  }

  ghost predicate KeyInv(limiters: map<string, Limiter>, st: State, scope: string, host: string)
    requires scope in limiters
  {
    ViewInv(ViewOf(st, scope, KeyOf(scope, host)), Gap(limiters, scope))
  }

  lemma PendingStep(limiters: map<string, Limiter>, st: State, step: Step)
    requires Enabled(limiters, st, step) && PendingInv(limiters, st)
    ensures PendingInv(limiters, Next(limiters, st, step))
  {
    var st' := Next(limiters, st, step);
    forall p | p in st'.pending ensures p.0 in limiters && exists host :: p.1 == KeyOf(p.0, host) {
      if p !in st.pending {
        assert p.1 == KeyOf(p.0, step.host);
      }
    }
  }

  /** An INCR touches the view of its own scope and host and of no other. */
  lemma IncrView(limiters: map<string, Limiter>, st: State, scope: string, host: string, scope': string, host': string)
    requires scope' in limiters && (scope == scope' || !Overlap(scope, scope'))
    ensures
      var v := ViewOf(st, scope, KeyOf(scope, host));
      ViewOf(Next(limiters, st, SendIncr(scope', host')), scope, KeyOf(scope, host))
        == if scope == scope' && host == host' then ViewIncr(v) else v
  {
    KeysDistinct(scope, host, scope', host');
    var key, key' := KeyOf(scope, host), KeyOf(scope', host');
    IncrViewOf(limiters, st, scope, key, scope', host', key');
  }

  lemma IncrViewOf(limiters: map<string, Limiter>, st: State, scope: string, key: string,
                   scope': string, host': string, key': string)
    requires scope' in limiters && key' == KeyOf(scope', host') && (key == key' ==> scope == scope')
    ensures ViewOf(Next(limiters, st, SendIncr(scope', host')), scope, key)
              == if key == key' then ViewIncr(ViewOf(st, scope, key)) else ViewOf(st, scope, key)
  {
    var st' := Next(limiters, st, SendIncr(scope', host'));
    OnKeyAppend(st.log, st'.log[|st.log|], key);
  }

  lemma ExpireViewOf(limiters: map<string, Limiter>, st: State, scope: string, key: string, scope': string,
                     key': string)
    requires Enabled(limiters, st, SendExpire(scope', key')) && (key == key' ==> scope == scope')
    ensures ViewOf(Next(limiters, st, SendExpire(scope', key')), scope, key)
              == if key == key' then ViewExpire(ViewOf(st, scope, key), Gap(limiters, scope))
                 else ViewOf(st, scope, key)
  {
  }

  lemma IncrKeepsKeyInv(limiters: map<string, Limiter>, st: State, scope: string, host: string, scope': string,
                        host': string)
    requires PrefixFree(limiters) && scope in limiters && scope' in limiters
    requires KeyInv(limiters, st, scope, host)
    ensures KeyInv(limiters, Next(limiters, st, SendIncr(scope', host')), scope, host)
  {
    IncrView(limiters, st, scope, host, scope', host');
    ViewIncrKeepsInv(ViewOf(st, scope, KeyOf(scope, host)), Gap(limiters, scope));
  }

  lemma ExpireKeepsKeyInv(limiters: map<string, Limiter>, st: State, scope: string, host: string, scope': string,
                          key': string)
    requires PrefixFree(limiters) && scope in limiters && PendingInv(limiters, st)
    requires Enabled(limiters, st, SendExpire(scope', key'))
    requires KeyInv(limiters, st, scope, host)
    ensures KeyInv(limiters, Next(limiters, st, SendExpire(scope', key')), scope, host)
  {
    var key := KeyOf(scope, host);
    var v := ViewOf(st, scope, key);
    if key' == key {
      var host' :| key' == KeyOf(scope', host');
      KeysDistinct(scope, host, scope', host');
      ViewExpireKeepsInv(v, Gap(limiters, scope));
    }
    ExpireViewOf(limiters, st, scope, key, scope', key');
  }

  lemma StepKeepsKeyInv(limiters: map<string, Limiter>, st: State, step: Step, scope: string, host: string)
    requires PrefixFree(limiters) && scope in limiters && Enabled(limiters, st, step)
    requires PendingInv(limiters, st) && KeyInv(limiters, st, scope, host)
    ensures PendingInv(limiters, Next(limiters, st, step)) && KeyInv(limiters, Next(limiters, st, step), scope, host)
  {
    PendingStep(limiters, st, step);
    match step
    case Tick(_) =>
    case SendIncr(scope', host') => IncrKeepsKeyInv(limiters, st, scope, host, scope', host');
    case SendExpire(scope', key') => ExpireKeepsKeyInv(limiters, st, scope, host, scope', key');
  }

  lemma {:induction false} RunInvariant(limiters: map<string, Limiter>, states: seq<State>, steps: seq<Step>, i: nat,
                                        scope: string, host: string)
    requires PrefixFree(limiters) && scope in limiters
    requires IsRun(limiters, states, steps) && i < |states|
    ensures PendingInv(limiters, states[i]) && KeyInv(limiters, states[i], scope, host)
  {
    if i > 0 {
      RunInvariant(limiters, states, steps, i - 1, scope, host);
      StepKeepsKeyInv(limiters, states[i - 1], steps[i - 1], scope, host);
    }
  }

  // ---------- the promises ----------

  /**
   * In every interleaving and for every window `[from, from + m * seconds)`, fewer than `(m + 1) * times` requests
   * of one client are admitted by one limiter (none at all when the limit is not positive).
   */
  lemma AdmittedPerWindow(limiters: map<string, Limiter>, states: seq<State>, steps: seq<Step>, i: nat,
                          scope: string, host: string, from: int, m: nat)
    requires PrefixFree(limiters) && scope in limiters
    requires IsRun(limiters, states, steps) && i < |states|
    ensures
      var times, width := limiters[scope].times, m * (limiters[scope].seconds * SECOND);
      var admitted := Admitted(OnKey(states[i].log, KeyOf(scope, host)), times, from, from + width);
      admitted <= m * Cap(times) + if Cap(times) > 0 then Cap(times) - 1 else 0
  {
    RunInvariant(limiters, states, steps, i, scope, host);
    WindowBound(OnKey(states[i].log, KeyOf(scope, host)), limiters[scope].seconds * SECOND, limiters[scope].times,
                from, m);
  }

  /** In every interleaving, a counter admits exactly the first `times` of the requests it answers. */
  lemma LifetimeAdmitsFirst(limiters: map<string, Limiter>, states: seq<State>, steps: seq<Step>, i: nat,
                            scope: string, host: string)
    requires PrefixFree(limiters) && scope in limiters
    requires IsRun(limiters, states, steps) && i < |states|
    requires OnKey(states[i].log, KeyOf(scope, host)) != []
    ensures
      var answered := Lifetime(OnKey(states[i].log, KeyOf(scope, host)));
      forall k :: 0 <= k < |answered| ==> (answered[k].current <= limiters[scope].times <==> k < limiters[scope].times)
  {
    RunInvariant(limiters, states, steps, i, scope, host);
    LifetimeCounts(OnKey(states[i].log, KeyOf(scope, host)), limiters[scope].seconds * SECOND);
  }

  /**
   * In every interleaving, a refused request has `times` admitted requests of the same client behind it within the
   * preceding `seconds` if and only if the counter that refused it was created within them. `DelayedExpireRefuses`
   * reaches the other case.
   */
  lemma RefusalJustifiedIff(limiters: map<string, Limiter>, states: seq<State>, steps: seq<Step>, i: nat,
                            scope: string, host: string)
    requires PrefixFree(limiters) && scope in limiters && limiters[scope].times >= 1
    requires IsRun(limiters, states, steps) && i < |states|
    requires var hits := OnKey(states[i].log, KeyOf(scope, host));
             hits != [] && hits[|hits| - 1].current > limiters[scope].times
    ensures
      var hits, times := OnKey(states[i].log, KeyOf(scope, host)), limiters[scope].times;
      var at, gap := hits[|hits| - 1].at, limiters[scope].seconds * SECOND;
      Admitted(hits, times, at - gap + 1, at + 1) >= times <==> Start(hits) > at - gap
  {
    RunInvariant(limiters, states, steps, i, scope, host);
    RefusalJustified(OnKey(states[i].log, KeyOf(scope, host)), Gap(limiters, scope), limiters[scope].times);
  }

  lemma RefusalJustified(hits: seq<Hit>, gap: int, times: int)
    requires hits != [] && Spaced(hits, gap) && 1 <= times < hits[|hits| - 1].current
    ensures
      var at := hits[|hits| - 1].at;
      Admitted(hits, times, at - gap + 1, at + 1) >= times <==> Start(hits) > at - gap
  {
    var at := hits[|hits| - 1].at;
    StartBounds(hits, gap);
    WindowInduction(hits, gap, times, at - gap + 1, at + 1);
    if Start(hits) > at - gap {
      LifetimeAdmitted(hits, gap, times, at - gap + 1, at + 1);
    }
  }

  // ---------- requests served one at a time ----------

  datatype Serial = Wait(micros: nat) | Request(scope: string, host: string)

  function SerialNext(limiters: map<string, Limiter>, st: State, step: Serial): State
    requires step.Request? ==> step.scope in limiters
  {
    match step
    case Wait(micros) => Next(limiters, st, Tick(micros))
    case Request(scope, host) => Serve(limiters, st, scope, host).0
  }

  ghost predicate IsSerialRun(limiters: map<string, Limiter>, states: seq<State>, steps: seq<Serial>) {
    && |states| == |steps| + 1 && Initial(states[0])
    && forall i {:trigger steps[i]} :: 0 <= i < |steps| ==>
         && (steps[i].Request? ==> steps[i].scope in limiters)
         && states[i + 1] == SerialNext(limiters, states[i], steps[i])
  }

  /** Between requests no EXPIRE is outstanding, and each deadline is exactly one period after the creation. */
  ghost predicate SerialView(v: View, gap: int) {
    && ViewInv(v, gap)
    && (v.hits != [] ==> v.counter.value.deadline == Some(Start(v.hits) + gap))
  }

  function ViewServe(v: View, gap: int): View {
    var v' := ViewIncr(v);
    if v'.counter.value.count == 1 && v'.waiting > 0 then ViewExpire(v', gap) else v'
  }

  lemma ViewServeKeepsSerial(v: View, gap: int)
    requires SerialView(v, gap)
    ensures SerialView(ViewServe(v, gap), gap)
  {
    ViewIncrKeepsInv(v, gap);
    var v' := ViewIncr(v);
    assert v'.hits[..|v.hits|] == v.hits;
    if v'.counter.value.count == 1 {
      ViewExpireKeepsInv(v', gap);
      assert Start(v'.hits) == v.now;
    } else {
      StartBounds(v.hits, gap);
      assert Start(v'.hits) == Start(v.hits);
    }
  }

  ghost predicate SerialInv(limiters: map<string, Limiter>, st: State, scope: string, host: string)
    requires scope in limiters
  {
    SerialView(ViewOf(st, scope, KeyOf(scope, host)), Gap(limiters, scope))
  }

  lemma ServeView(limiters: map<string, Limiter>, st: State, scope: string, host: string, scope': string, host': string)
    requires scope' in limiters && scope in limiters && (scope == scope' || !Overlap(scope, scope'))
    ensures
      var v := ViewOf(st, scope, KeyOf(scope, host));
      ViewOf(Serve(limiters, st, scope', host').0, scope, KeyOf(scope, host))
        == if scope == scope' && host == host' then ViewServe(v, Gap(limiters, scope)) else v
    ensures
      var answered := ViewIncr(ViewOf(st, scope', KeyOf(scope', host'))).counter.value.count;
      Serve(limiters, st, scope', host').1 <==> answered <= limiters[scope'].times
  {
    IncrView(limiters, st, scope, host, scope', host');
    IncrView(limiters, st, scope', host', scope', host');
    KeysDistinct(scope, host, scope', host');
    var mid := Next(limiters, st, SendIncr(scope', host'));
    if mid.log[|st.log|].current == 1 {
      ExpireViewOf(limiters, mid, scope, KeyOf(scope, host), scope', KeyOf(scope', host'));
    }
  }

  lemma ServeKeepsSerialInv(limiters: map<string, Limiter>, st: State, scope: string, host: string, scope': string,
                            host': string)
    requires PrefixFree(limiters) && scope in limiters && scope' in limiters
    requires SerialInv(limiters, st, scope, host)
    ensures SerialInv(limiters, Serve(limiters, st, scope', host').0, scope, host)
  {
    ServeView(limiters, st, scope, host, scope', host');
    ViewServeKeepsSerial(ViewOf(st, scope, KeyOf(scope, host)), Gap(limiters, scope));
  }

  lemma {:induction false} SerialInvariant(limiters: map<string, Limiter>, states: seq<State>, steps: seq<Serial>,
                                           i: nat, scope: string, host: string)
    requires PrefixFree(limiters) && scope in limiters
    requires IsSerialRun(limiters, states, steps) && i < |states|
    ensures SerialInv(limiters, states[i], scope, host)
  {
    if i > 0 {
      SerialInvariant(limiters, states, steps, i - 1, scope, host);
      assert states[i - 1 + 1] == SerialNext(limiters, states[i - 1], steps[i - 1]);
      match steps[i - 1]
      case Wait(_) =>
      case Request(scope', host') => ServeKeepsSerialInv(limiters, states[i - 1], scope, host, scope', host');
    }
  }

  /** Of the hits in the last `gap` microseconds, the present instant included, at least `times` were admitted. */
  ghost predicate FullBehind(v: View, times: int, gap: int) {
    Admitted(v.hits, times, v.now - gap + 1, v.now + 1) >= Cap(times)
  }

  /**
   * When every EXPIRE follows its INCR at the same instant, nobody is refused early: a refused request has at least
   * `times` admitted requests of the same client behind it within the preceding `seconds`.
   */
  lemma RefusedOnlyWhenFull(limiters: map<string, Limiter>, states: seq<State>, steps: seq<Serial>, i: nat,
                            scope: string, host: string)
    requires PrefixFree(limiters) && scope in limiters
    requires IsSerialRun(limiters, states, steps) && i < |states|
    requires !Serve(limiters, states[i], scope, host).1
    ensures FullBehind(ViewOf(Serve(limiters, states[i], scope, host).0, scope, KeyOf(scope, host)),
                       limiters[scope].times, limiters[scope].seconds * SECOND)
  {
    SerialInvariant(limiters, states, steps, i, scope, host);
    RefusedState(limiters, states[i], scope, host);
  }

  lemma RefusedState(limiters: map<string, Limiter>, st: State, scope: string, host: string)
    requires PrefixFree(limiters) && scope in limiters && SerialInv(limiters, st, scope, host)
    requires !Serve(limiters, st, scope, host).1
    ensures FullBehind(ViewOf(Serve(limiters, st, scope, host).0, scope, KeyOf(scope, host)),
                       limiters[scope].times, Gap(limiters, scope))
  {
    ServeView(limiters, st, scope, host, scope, host);
    RefusedView(ViewOf(st, scope, KeyOf(scope, host)), Gap(limiters, scope), limiters[scope].times);
  }

  /** A served request's counter is younger than one period. */
  lemma ServedLifetime(v: View, gap: int)
    requires SerialView(v, gap)
    ensures
      var hits := ViewIncr(v).hits;
      && hits != [] && hits[|hits| - 1].at == v.now && Spaced(hits, gap)
      && hits[|hits| - 1].current == ViewIncr(v).counter.value.count
      && (hits[|hits| - 1].current > 1 || gap > 0 ==> Start(hits) > v.now - gap)
  {
    ViewIncrKeepsInv(v, gap);
    assert ViewIncr(v).hits[..|v.hits|] == v.hits;
    if v.hits != [] {
      StartBounds(v.hits, gap);
    }
  }

  lemma RefusedView(v: View, gap: int, times: int)
    requires SerialView(v, gap) && ViewIncr(v).counter.value.count > times
    ensures FullBehind(ViewServe(v, gap), times, gap)
  {
    ServedLifetime(v, gap);
    if times > 0 {
      RefusalJustified(ViewIncr(v).hits, gap, times);
    }
  }
}
