// The fixed-window rate limiter (app/services/rate_limit.py) over Redis counters.
//
// INCR and EXPIRE are two separate atomic Redis commands, so many requests may interleave
// between them. Time is in microseconds; a counter is absent from its deadline on.
module RateLimit {
  import opened Wrappers
  import Text

  const SECOND := 1_000_000

  datatype Limiter = Limiter(times: int, seconds: int)

  /** A counter key; it has no deadline until some request's EXPIRE reaches it. */
  datatype Counter = Counter(count: int, deadline: Option<int>)

  // ---------- keys ----------

  const PREFIX := "ratelimit:"

  /** A request without a client address is counted under the host "unknown". */
  function Host(client: Option<string>): string {
    if client.None? then "unknown" else client.value
  }

  function KeyOf(scope: string, host: string): string {
    PREFIX + scope + ":" + host
  }

  predicate ColonFree(s: string) {
    ':' !in s
  }

  /** One scope's part of a key, its colon included, begins the other's. */
  predicate Overlap(scope: string, scope': string) {
    scope + ":" <= scope' + ":" || scope' + ":" <= scope + ":"
  }

  /** Unless one scope with its colon begins the other, keys are shared only by equal (scope, host) pairs. */
  lemma KeysDistinct(scope: string, host: string, scope': string, host': string)
    requires scope == scope' || !Overlap(scope, scope')
    ensures KeyOf(scope, host) == KeyOf(scope', host') <==> scope == scope' && host == host'
  {
    if KeyOf(scope, host) == KeyOf(scope', host') {
      SharedKeyOverlaps(scope, host, scope', host');
      assert host == KeyOf(scope, host)[|PREFIX + scope + ":"|..];
      assert host' == KeyOf(scope', host')[|PREFIX + scope' + ":"|..];
    }
  }

  lemma SharedKeyOverlaps(scope: string, host: string, scope': string, host': string)
    requires KeyOf(scope, host) == KeyOf(scope', host')
    ensures Overlap(scope, scope')
  {
    var rest := KeyOf(scope, host)[|PREFIX|..];
    assert rest == (scope + ":") + host && rest == (scope' + ":") + host';
    assert scope + ":" == rest[..|scope| + 1] && scope' + ":" == rest[..|scope'| + 1];
    if |scope| <= |scope'| {
      PrefixOfPrefix(rest, |scope| + 1, |scope'| + 1);
    } else {
      PrefixOfPrefix(rest, |scope'| + 1, |scope| + 1);
    }
  }

  lemma PrefixOfPrefix(s: string, m: nat, n: nat)
    requires m <= n <= |s|
    ensures s[..m] <= s[..n]
  {
  }

  ghost predicate ShareAKey(scope: string, scope': string) {
    exists host, host' :: KeyOf(scope, host) == KeyOf(scope', host')
  }

  /** Exactly when two limiters can count different clients together: one scope with its colon begins the other. */
  lemma ScopesShareKeyIff(scope: string, scope': string)
    ensures ShareAKey(scope, scope') <==> Overlap(scope, scope')
  {
    if ShareAKey(scope, scope') {
      var host, host' :| KeyOf(scope, host) == KeyOf(scope', host');
      SharedKeyOverlaps(scope, host, scope', host');
    }
    if scope + ":" <= scope' + ":" {
      LongerScopeHost(scope, scope');
    } else if scope' + ":" <= scope + ":" {
      LongerScopeHost(scope', scope);
      assert ShareAKey(scope', scope);
    }
  }

  /** The rest of the longer scope can be the beginning of a host. */
  lemma LongerScopeHost(scope: string, scope': string)
    requires scope + ":" <= scope' + ":"
    ensures KeyOf(scope, (scope' + ":")[|scope| + 1..]) == KeyOf(scope', "")
    ensures ShareAKey(scope, scope')
  {
    var host := (scope' + ":")[|scope| + 1..];
    assert (scope + ":") + host == scope' + ":";
    assert KeyOf(scope, host) == PREFIX + ((scope + ":") + host);
    assert KeyOf(scope', "") == PREFIX + (scope' + ":");
  }

  /** For example these two. */
  lemma ColonScopesCollide()
    ensures KeyOf("a:b", "c") == KeyOf("a", "b:c")
  {
    assert "a:b" + ":" + "c" == "a" + ":" + "b:c";
  }

  /** Scopes without colons overlap only if they are equal. */
  lemma ColonFreeScopes(scope: string, scope': string)
    requires ColonFree(scope) && ColonFree(scope')
    ensures Overlap(scope, scope') <==> scope == scope'
  {
    ScopesShareKeyIff(scope, scope');
    if Overlap(scope, scope') {
      var host, host' :| KeyOf(scope, host) == KeyOf(scope', host');
      assert scope + [':'] + host == KeyOf(scope, host)[|PREFIX|..];
      assert scope' + [':'] + host' == KeyOf(scope', host')[|PREFIX|..];
      Text.SplitUnique(scope, ':', host, scope', host');
    }
  }

  /** No two limiters can share a key. */
  predicate PrefixFree(limiters: map<string, Limiter>) {
    forall scope, scope' :: scope in limiters && scope' in limiters && scope != scope' ==> !Overlap(scope, scope')
  }

  /** The limiters of the routes. */
  const ROUTES: map<string, Limiter> :=
    map["register" := Limiter(5, 60), "login" := Limiter(5, 60), "forgot-password" := Limiter(5, 60)]

  lemma RoutesPrefixFree()
    ensures PrefixFree(ROUTES)
  {
    forall scope, scope' | scope in ROUTES && scope' in ROUTES && scope != scope' ensures !Overlap(scope, scope') {
      ColonFreeScopes(scope, scope');
    }
  }

  // ---------- the Redis commands ----------

  predicate Alive(counters: map<string, Counter>, key: string, now: int) {
    key in counters && (counters[key].deadline.Some? ==> now < counters[key].deadline.value)
  }

  /** INCR: one more, keeping the deadline; a missing counter starts at 1 without one. */
  function Incremented(counters: map<string, Counter>, key: string, now: int): map<string, Counter> {
    if Alive(counters, key, now) then
      counters[key := counters[key].(count := counters[key].count + 1)]
    else
      counters[key := Counter(1, None)]
  }

  /** EXPIRE: sets the deadline of a counter that exists. */
  function Expiring(counters: map<string, Counter>, key: string, seconds: int, now: int): map<string, Counter> {
    if Alive(counters, key, now) then
      counters[key := counters[key].(deadline := Some(now + seconds * SECOND))]
    else
      counters
  }

  class RedisCounters {
    var counters: map<string, Counter>
    var now: int

    constructor (now: int)
      ensures counters == map[] && this.now == now
    {
      this.counters := map[];
      this.now := now;
    }

    method Incr(key: string) returns (current: int)
      modifies this`counters
      ensures counters == Incremented(old(counters), key, now)
      ensures current == counters[key].count
    {
      if Alive(counters, key, now) {
        current := counters[key].count + 1;
        counters := counters[key := Counter(current, counters[key].deadline)];
      } else {
        current := 1;
        counters := counters[key := Counter(1, None)];
      }
    }

    method Expire(key: string, seconds: int)
      modifies this`counters
      ensures counters == Expiring(old(counters), key, seconds, now)
    {
      if Alive(counters, key, now) {
        counters := counters[key := Counter(counters[key].count, Some(now + seconds * SECOND))];
      }
    }
  }

  // ---------- the protocol as steps of many requests ----------

  /** One answered INCR. The request is admitted exactly when its count is within the limit. */
  datatype Hit = Hit(key: string, at: int, current: int)

  /** `pending` holds, for each request that got count 1, the scope and key of the EXPIRE it has yet to send. */
  datatype State = State(
    counters: map<string, Counter>, pending: multiset<(string, string)>, now: int, log: seq<Hit>)

  datatype Step =
    | Tick(micros: nat)
    | SendIncr(scope: string, host: string)
    | SendExpire(scope: string, key: string)

  predicate Enabled(limiters: map<string, Limiter>, st: State, step: Step) {
    match step
    case Tick(_) => true
    case SendIncr(scope, _) => scope in limiters
    case SendExpire(scope, key) => (scope, key) in st.pending && scope in limiters
  }

  function Next(limiters: map<string, Limiter>, st: State, step: Step): State
    requires Enabled(limiters, st, step)
  {
    match step
    case Tick(micros) => st.(now := st.now + micros)
    case SendIncr(scope, host) =>
      var key := KeyOf(scope, host);
      var counters := Incremented(st.counters, key, st.now);
      var current := counters[key].count;
      State(counters,
            if current == 1 then st.pending + multiset{(scope, key)} else st.pending,
            st.now,
            st.log + [Hit(key, st.now, current)])
    case SendExpire(scope, key) =>
      st.(counters := Expiring(st.counters, key, limiters[scope].seconds, st.now),
          pending := st.pending - multiset{(scope, key)})
  }

  predicate Initial(st: State) {
    st.counters == map[] && st.pending == multiset{} && st.log == []
  }

  ghost predicate IsRun(limiters: map<string, Limiter>, states: seq<State>, steps: seq<Step>) {
    && |states| == |steps| + 1 && Initial(states[0])
    && forall i {:trigger steps[i]} :: 0 <= i < |steps| ==>
         Enabled(limiters, states[i], steps[i]) && states[i + 1] == Next(limiters, states[i], steps[i])
  }

  /** A request served without interference: INCR, its EXPIRE if it got count 1, and the verdict. */
  function Serve(limiters: map<string, Limiter>, st: State, scope: string, host: string): (State, bool)
    requires scope in limiters
  {
    var incremented := Next(limiters, st, SendIncr(scope, host));
    var current := incremented.log[|st.log|].current;
    var served :=
      if current == 1 then Next(limiters, incremented, SendExpire(scope, KeyOf(scope, host))) else incremented;
    (served, current <= limiters[scope].times)
  }

  /** One more under this key, with a deadline `seconds` from now if it is the first; every other key is untouched. */
  predicate CountedOnce(before: map<string, Counter>, after: map<string, Counter>, key: string, seconds: int,
                        now: int)
  {
    var count := if Alive(before, key, now) then before[key].count + 1 else 1;
    && key in after && after[key].count == count
    && after[key].deadline == (if count == 1 then Some(now + seconds * 1_000_000) else before[key].deadline)
    && after - {key} == before - {key}
  }

  lemma ServeCountsOnce(limiters: map<string, Limiter>, st: State, scope: string, host: string)
    requires scope in limiters
    ensures
      var (served, verdict) := Serve(limiters, st, scope, host);
      && CountedOnce(st.counters, served.counters, KeyOf(scope, host), limiters[scope].seconds, st.now)
      && (verdict <==> served.counters[KeyOf(scope, host)].count <= limiters[scope].times)
  {
    var key := KeyOf(scope, host);
    var served := Serve(limiters, st, scope, host).0;
    assert Incremented(st.counters, key, st.now) - {key} == st.counters - {key};
    assert served.counters - {key} == Incremented(st.counters, key, st.now) - {key};
  }

  /** The limiter object of one route. */
  class RateLimiter {
    const times: int
    const seconds: int
    const scope: string

    constructor (times: int, seconds: int, scope: string)
      ensures this.times == times && this.seconds == seconds && this.scope == scope
    {
      this.times := times;
      this.seconds := seconds;
      this.scope := scope;
    }

    /** The dependency call: refused with status 429 when `allowed` is false. */
    method Call(client: Option<string>, redis: RedisCounters) returns (allowed: bool)
      modifies redis`counters
      ensures
        var before := State(old(redis.counters), multiset{}, redis.now, []);
        var (after, verdict) := Serve(map[scope := Limiter(times, seconds)], before, scope, Host(client));
        redis.counters == after.counters && allowed == verdict
      ensures
        var key := "ratelimit:" + scope + ":" + if client == None then "unknown" else client.value;
        && CountedOnce(old(redis.counters), redis.counters, key, seconds, redis.now)
        && (allowed <==> redis.counters[key].count <= times)
    {
      var host := if client.Some? then client.value else "unknown";
      var key := PREFIX + scope + ":" + host;
      var current := redis.Incr(key);
      if current == 1 {
        redis.Expire(key, seconds);
      }
      ServeCountsOnce(map[scope := Limiter(times, seconds)], State(old(redis.counters), multiset{}, redis.now, []),
                      scope, host);
      if current > times {
        return false;
      }
      return true;
    }
  }
}
