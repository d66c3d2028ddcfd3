/** The per-address rate limiter with idle eviction (internal/auth/ratelimit.go).

    Times are seconds and tokens are fractional, both as reals; the rounding of the rate
    library's floating point is not modelled. One request reads the clock once. */
module RateLimit {
  import opened Prelude

  const VISITOR_TTL: real := 180.0

  /** A token bucket: full at first, refilled by limit/window per second up to `limit`. */
  datatype Bucket = Bucket(tokens: real, last: real)

  /** `rate` is limit/window, in tokens per second. */
  datatype Limits = Limits(limit: nat, window: real, rate: real) {
    predicate Valid() {
      window > 0.0 && rate >= 0.0 && rate * window == limit as real
    }
  }

  function MakeLimits(limit: nat, window: real): (lim: Limits)
    requires window > 0.0
    ensures lim.Valid() && lim.limit == limit && lim.window == window
  {
    Limits(limit, window, limit as real / window)
  }

  function Full(lim: Limits, now: real): Bucket {
    Bucket(lim.limit as real, now)
  }

  function Min(a: real, b: real): real {
    if a <= b then a else b
  }

  /** The tokens that flow in during some time. */
  function Flow(lim: Limits, elapsed: real): real {
    elapsed * lim.rate
  }

  /** What the bucket holds at `now`. The clock never makes it lose tokens. */
  function Available(lim: Limits, b: Bucket, now: real): real
  {
    Min(lim.limit as real, b.tokens + Flow(lim, if now > b.last then now - b.last else 0.0))
  }

  /** A request takes one token or is refused; a refusal leaves the bucket as it is. */
  function Take(lim: Limits, b: Bucket, now: real): (r: (Bucket, bool))
  {
    var tokens := Available(lim, b, now);
    if tokens >= 1.0 then (Bucket(tokens - 1.0, now), true) else (b, false)
  }

  datatype Visitor = Visitor(bucket: Bucket, lastSeen: real)

  type Visitors = map<string, Visitor>

  // ----- The limiter, and the limiter that never evicts -----

  function AllowStep(lim: Limits, visitors: Visitors, ip: string, now: real): (Visitors, bool)
  {
    var bucket := if ip in visitors then visitors[ip].bucket else Full(lim, now);
    var (bucket', ok) := Take(lim, bucket, now);
    (visitors[ip := Visitor(bucket', now)], ok)
  }

  function EvictStep(visitors: Visitors, now: real): Visitors {
    map ip | ip in visitors && visitors[ip].lastSeen >= now - VISITOR_TTL :: visitors[ip]
  }

  class IPRateLimiter {
    const lim: Limits
    var visitors: Visitors

    constructor (limit: nat, window: real)
      requires window > 0.0
      ensures lim == MakeLimits(limit, window) && visitors == map[]
    {
      lim := MakeLimits(limit, window);
      visitors := map[];
    }

    method Allow(ip: string, now: real) returns (ok: bool)
      requires lim.Valid()
      modifies this
      ensures (visitors, ok) == AllowStep(lim, old(visitors), ip, now)
      ensures ip in visitors && visitors[ip].lastSeen == now && visitors == old(visitors)[ip := visitors[ip]]
    {
      var v := GetVisitor(ip, now);
      var (bucket, taken) := Take(lim, v.bucket, now);
      visitors := visitors[ip := v.(bucket := bucket)];
      assert visitors == old(visitors)[ip := Visitor(bucket, now)];
      ok := taken;
    }

    method GetVisitor(ip: string, now: real) returns (v: Visitor)
      modifies this
      ensures v == Visitor(if ip in old(visitors) then old(visitors)[ip].bucket else Full(lim, now), now)
      ensures visitors == old(visitors)[ip := v]
    {
      if ip !in visitors {
        visitors := visitors[ip := Visitor(Full(lim, now), now)];
      }
      v := visitors[ip].(lastSeen := now);
      visitors := visitors[ip := v];
    }

    /** One tick of the cleanup loop. */
    method Cleanup(now: real)
      modifies this
      ensures visitors == EvictStep(old(visitors), now)
      ensures forall ip :: ip in visitors <==> ip in old(visitors) && now - old(visitors)[ip].lastSeen <= 180.0
    {
      var cutoff := now - VISITOR_TTL;
      var rest := visitors.Keys;
      while rest != {}
        invariant rest <= old(visitors).Keys
        invariant visitors ==
                  map ip | ip in old(visitors) && (ip in rest || old(visitors)[ip].lastSeen >= cutoff) ::
                    old(visitors)[ip]
      {
        var ip :| ip in rest;
        if visitors[ip].lastSeen < cutoff {
          visitors := visitors - {ip};
        }
        rest := rest - {ip};
      }
    }
  }

  datatype Event = Request(ip: string, at: real) | Sweep(at: real)

  /** One event: the new state, and the answer if it is a request. */
  function Handle(lim: Limits, visitors: Visitors, ev: Event, evict: bool): (Visitors, seq<bool>)
  {
    match ev
    case Request(ip, at) => var (visitors', ok) := AllowStep(lim, visitors, ip, at); (visitors', [ok])
    case Sweep(at) => (if evict then EvictStep(visitors, at) else visitors, [])
  }

  /** The answers to the requests of a trace, with or without eviction. */
  function Answers(lim: Limits, visitors: Visitors, trace: seq<Event>, evict: bool): seq<bool>
    decreases |trace|
  {
    if trace == [] then []
    else
      var (visitors', answer) := Handle(lim, visitors, trace[0], evict);
      answer + Answers(lim, visitors', trace[1..], evict)
  }

  function After(lim: Limits, visitors: Visitors, trace: seq<Event>, evict: bool): Visitors
    decreases |trace|
  {
    if trace == [] then visitors
    else After(lim, Handle(lim, visitors, trace[0], evict).0, trace[1..], evict)
  }

  /** The clock does not run backwards along the trace, from `now` on. */
  predicate Chronological(trace: seq<Event>, now: real) {
    trace == [] || (trace[0].at >= now && Chronological(trace[1..], trace[0].at))
  }

  function EndTime(trace: seq<Event>, now: real): real {
    if trace == [] then now else trace[|trace| - 1].at
  }

  // ----- Eviction is unobservable -----

  /** What the bucket of `ip` holds: a missing visitor counts as a full bucket. */
  function Level(lim: Limits, visitors: Visitors, ip: string, now: real): real
  {
    if ip in visitors then Available(lim, visitors[ip].bucket, now) else lim.limit as real
  }

  ghost predicate Sane(lim: Limits, visitors: Visitors, now: real) {
    forall ip :: ip in visitors ==>
      && 0.0 <= visitors[ip].bucket.tokens <= lim.limit as real
      && visitors[ip].bucket.last <= visitors[ip].lastSeen <= now
  }

  /** The evicting limiter knows some of the visitors, as the other one does, and the
      buckets of all others are full. A limit of 0 leaves nothing to compare. */
  ghost predicate Agree(lim: Limits, evicting: Visitors, keeping: Visitors, now: real)
  {
    && (forall ip :: ip in evicting ==> ip in keeping && evicting[ip].lastSeen == keeping[ip].lastSeen)
    && (lim.limit > 0 ==> forall ip :: ip in evicting ==> evicting[ip].bucket == keeping[ip].bucket)
    && (forall ip :: ip in keeping && ip !in evicting ==> Level(lim, keeping, ip, now) == lim.limit as real)
  }

  /** Eviction forgets only buckets that have filled up again. */
  predicate Harmless(lim: Limits) {
    lim.window <= VISITOR_TTL || lim.limit == 0
  }

  lemma FlowIsPositive(lim: Limits, elapsed: real)
    requires lim.rate >= 0.0 && elapsed >= 0.0
    ensures Flow(lim, elapsed) >= 0.0
  {}

  lemma FlowAdds(lim: Limits, a: real, b: real, c: real)
    ensures Flow(lim, c - a) == Flow(lim, c - b) + Flow(lim, b - a)
  {}

  lemma FlowOfWindow(lim: Limits)
    requires lim.Valid()
    ensures Flow(lim, lim.window) == lim.limit as real
  {}

  lemma FlowIsStrict(lim: Limits, elapsed: real)
    requires lim.Valid() && lim.limit > 0 && elapsed > 0.0
    ensures Flow(lim, elapsed) > 0.0
  {}

  /** The bucket fills up in one window and no sooner. */
  lemma Refill(lim: Limits, elapsed: real)
    requires lim.Valid() && elapsed >= 0.0
    ensures Flow(lim, elapsed) >= 0.0
    ensures elapsed >= lim.window ==> Flow(lim, elapsed) >= lim.limit as real
    ensures elapsed < lim.window && lim.limit > 0 ==> Flow(lim, elapsed) < lim.limit as real
  {
    hide Flow;
    FlowIsPositive(lim, elapsed);
    FlowOfWindow(lim);
    if elapsed >= lim.window {
      FlowAdds(lim, 0.0, lim.window, elapsed);
      FlowIsPositive(lim, elapsed - lim.window);
    } else if lim.limit > 0 {
      FlowAdds(lim, 0.0, elapsed, lim.window);
      FlowIsStrict(lim, lim.window - elapsed);
    }
  }

  lemma BucketGrows(lim: Limits, b: Bucket, now: real, later: real)
    requires lim.rate >= 0.0 && 0.0 <= b.tokens <= lim.limit as real && b.last <= now <= later
    ensures 0.0 <= Available(lim, b, now) <= Available(lim, b, later) <= lim.limit as real
    ensures Available(lim, b, later) <= Available(lim, b, now) + Flow(lim, later - now)
  {
    hide Flow;
    FlowIsPositive(lim, later - now);
    FlowIsPositive(lim, now - b.last);
    FlowAdds(lim, b.last, now, later);
  }

  /** Available tokens grow at no more than the rate, and stay within the limit. */
  lemma LevelGrows(lim: Limits, visitors: Visitors, ip: string, now: real, later: real)
    requires lim.rate >= 0.0 && Sane(lim, visitors, now) && now <= later
    ensures 0.0 <= Level(lim, visitors, ip, now) <= Level(lim, visitors, ip, later) <= lim.limit as real
    ensures Level(lim, visitors, ip, later) <= Level(lim, visitors, ip, now) + Flow(lim, later - now)
  {
    hide Flow;
    FlowIsPositive(lim, later - now);
    if ip in visitors {
      BucketGrows(lim, visitors[ip].bucket, now, later);
    }
  }

  lemma HandleSane(lim: Limits, visitors: Visitors, ev: Event, evict: bool, now: real)
    requires lim.rate >= 0.0 && Sane(lim, visitors, now) && now <= ev.at
    ensures Sane(lim, Handle(lim, visitors, ev, evict).0, ev.at)
  {
    if ev.Request? {
      LevelGrows(lim, visitors, ev.ip, now, ev.at);
    }
  }

  lemma SweepAgrees(lim: Limits, evicting: Visitors, keeping: Visitors, now: real, at: real)
    requires lim.Valid() && Harmless(lim) && now <= at
    requires Sane(lim, keeping, now) && Agree(lim, evicting, keeping, now)
    ensures Agree(lim, EvictStep(evicting, at), keeping, at)
  {
    forall ip | ip in keeping && ip !in EvictStep(evicting, at)
      ensures Level(lim, keeping, ip, at) == lim.limit as real
    {
      LevelGrows(lim, keeping, ip, now, at);
      if ip in evicting {
        Refill(lim, at - keeping[ip].bucket.last);
      }
    }
  }

  lemma RequestAgrees(lim: Limits, evicting: Visitors, keeping: Visitors, now: real, ip: string, at: real)
    requires lim.Valid() && now <= at
    requires Sane(lim, keeping, now) && Agree(lim, evicting, keeping, now)
    ensures var (e, ok) := AllowStep(lim, evicting, ip, at);
            var (k, ok') := AllowStep(lim, keeping, ip, at);
            ok == ok' && Agree(lim, e, k, at)
  {
    var (e, ok) := AllowStep(lim, evicting, ip, at);
    var (k, ok') := AllowStep(lim, keeping, ip, at);
    LevelGrows(lim, keeping, ip, now, at);
    forall other | other in k && other !in e ensures Level(lim, k, other, at) == lim.limit as real {
      LevelGrows(lim, keeping, other, now, at);
    }
  }

  lemma HandleAgrees(lim: Limits, evicting: Visitors, keeping: Visitors, now: real, ev: Event)
    requires lim.Valid() && Harmless(lim) && now <= ev.at
    requires Sane(lim, keeping, now) && Agree(lim, evicting, keeping, now)
    ensures Handle(lim, evicting, ev, true).1 == Handle(lim, keeping, ev, false).1
    ensures Agree(lim, Handle(lim, evicting, ev, true).0, Handle(lim, keeping, ev, false).0, ev.at)
  {
    match ev
    case Request(ip, at) => RequestAgrees(lim, evicting, keeping, now, ip, at);
    case Sweep(at) => SweepAgrees(lim, evicting, keeping, now, at);
  }

  lemma {:induction false} TraceAgrees(lim: Limits, evicting: Visitors, keeping: Visitors, now: real, trace: seq<Event>)
    requires lim.Valid() && Harmless(lim) && Chronological(trace, now)
    requires Sane(lim, keeping, now) && Agree(lim, evicting, keeping, now)
    ensures Answers(lim, evicting, trace, true) == Answers(lim, keeping, trace, false)
    ensures Agree(lim, After(lim, evicting, trace, true), After(lim, keeping, trace, false), EndTime(trace, now))
    ensures Sane(lim, After(lim, keeping, trace, false), EndTime(trace, now))
    decreases |trace|
  {
    if trace != [] {
      var ev := trace[0];
      HandleAgrees(lim, evicting, keeping, now, ev);
      HandleSane(lim, keeping, ev, false, now);
      TraceAgrees(lim, Handle(lim, evicting, ev, true).0, Handle(lim, keeping, ev, false).0, ev.at, trace[1..]);
    }
  }

  lemma {:induction false} AdmittedAgrees(lim: Limits, evicting: Visitors, keeping: Visitors, now: real,
                                          trace: seq<Event>, ip: string)
    requires lim.Valid() && Harmless(lim) && Chronological(trace, now)
    requires Sane(lim, keeping, now) && Agree(lim, evicting, keeping, now)
    ensures Admitted(lim, evicting, trace, true, ip) == Admitted(lim, keeping, trace, false, ip)
    decreases |trace|
  {
    if trace != [] {
      var ev := trace[0];
      HandleAgrees(lim, evicting, keeping, now, ev);
      HandleSane(lim, keeping, ev, false, now);
      AdmittedAgrees(lim, Handle(lim, evicting, ev, true).0, Handle(lim, keeping, ev, false).0, ev.at, trace[1..], ip);
    }
  }

  /** The tokens that `ip` has now and that flow in until `end` do not exceed `budget`. */
  predicate Within(lim: Limits, visitors: Visitors, ip: string, now: real, end: real, budget: real)
  {
    Level(lim, visitors, ip, now) + Flow(lim, end - now) <= budget
  }

  function Cost(ev: Event, ip: string, answer: seq<bool>): nat {
    if ev.Request? && ev.ip == ip && answer != [] && answer[0] then 1 else 0
  }

  /** Requests of `ip` that are admitted in the trace. */
  function Admitted(lim: Limits, visitors: Visitors, trace: seq<Event>, evict: bool, ip: string): nat
    decreases |trace|
  {
    if trace == [] then 0
    else
      var (visitors', answer) := Handle(lim, visitors, trace[0], evict);
      Cost(trace[0], ip, answer) + Admitted(lim, visitors', trace[1..], evict, ip)
  }

  lemma WithinStep(lim: Limits, visitors: Visitors, now: real, ev: Event, ip: string, end: real, budget: real)
    requires lim.rate >= 0.0 && Sane(lim, visitors, now) && now <= ev.at && Within(lim, visitors, ip, now, end, budget)
    ensures var (next, answer) := Handle(lim, visitors, ev, false);
            Within(lim, next, ip, ev.at, end, budget - Cost(ev, ip, answer) as real)
  {
    hide Flow;
    Spent(lim, visitors, now, ev, ip);
    LevelGrows(lim, visitors, ip, now, ev.at);
    FlowAdds(lim, now, ev.at, end);
  }

  lemma WithinIsPositive(lim: Limits, visitors: Visitors, ip: string, now: real, budget: real)
    requires lim.rate >= 0.0 && Sane(lim, visitors, now) && Within(lim, visitors, ip, now, now, budget)
    ensures budget >= 0.0
  {
    LevelGrows(lim, visitors, ip, now, now);
  }

  /** What an address is admitted is paid for by its level at the start and the refill. */
  lemma {:induction false} AdmittedIsPaid(lim: Limits, visitors: Visitors, now: real, trace: seq<Event>,
                                          ip: string, budget: real)
    requires lim.rate >= 0.0 && Chronological(trace, now) && Sane(lim, visitors, now)
    requires Within(lim, visitors, ip, now, EndTime(trace, now), budget)
    ensures Admitted(lim, visitors, trace, false, ip) as real <= budget
    decreases |trace|
  {
    if trace == [] {
      WithinIsPositive(lim, visitors, ip, now, budget);
    } else {
      var ev, end := trace[0], EndTime(trace, now);
      var (next, answer) := Handle(lim, visitors, ev, false);
      HandleSane(lim, visitors, ev, false, now);
      WithinStep(lim, visitors, now, ev, ip, end, budget);
      assert EndTime(trace[1..], ev.at) == end;
      AdmittedIsPaid(lim, next, ev.at, trace[1..], ip, budget - Cost(ev, ip, answer) as real);
    }
  }

  /** An admitted request costs its address one token; no other event costs it anything. */
  lemma Spent(lim: Limits, visitors: Visitors, now: real, ev: Event, ip: string)
    requires lim.rate >= 0.0 && Sane(lim, visitors, now) && now <= ev.at
    ensures var (next, answer) := Handle(lim, visitors, ev, false);
            Level(lim, next, ip, ev.at)
            == Level(lim, visitors, ip, ev.at) - Cost(ev, ip, answer) as real
  {
    LevelGrows(lim, visitors, ip, now, ev.at);
  }

  /** The most an address can be admitted in a stretch of length `T`. */
  function Allowance(lim: Limits, T: real): real {
    lim.limit as real + Flow(lim, T)
  }

  lemma AllowanceSuffices(lim: Limits, visitors: Visitors, ip: string, now: real, t0: real, end: real)
    requires lim.rate >= 0.0 && Sane(lim, visitors, now) && now <= t0
    ensures Within(lim, visitors, ip, t0, end, Allowance(lim, end - t0)) && Sane(lim, visitors, t0)
  {
    LevelGrows(lim, visitors, ip, now, t0);
  }

  /** When the window is no longer than the idle time, over any stretch of any trace an
      address is admitted at most limit + T * limit/window requests, T being the length
      of the stretch, evictions or not. */
  lemma AdmissionBound(lim: Limits, before: seq<Event>, stretch: seq<Event>, start: real, ip: string, T: real)
    requires lim.Valid() && (lim.window <= 180.0 || lim.limit == 0)
    requires Chronological(before, start)
    requires stretch != [] && Chronological(stretch, EndTime(before, start))
    requires T == EndTime(stretch, 0.0) - stretch[0].at
    ensures Admitted(lim, After(lim, map[], before, true), stretch, true, ip) as real
            <= lim.limit as real + T * lim.rate
  {
    hide Flow;
    AllowanceIs(lim, T);
    var keeping := After(lim, map[], before, false);
    TraceAgrees(lim, map[], map[], start, before);
    AdmittedAgrees(lim, After(lim, map[], before, true), keeping, EndTime(before, start), stretch, ip);
    AllowanceSuffices(lim, keeping, ip, EndTime(before, start), stretch[0].at, EndTime(stretch, 0.0));
    AdmittedIsPaid(lim, keeping, stretch[0].at, stretch, ip, Allowance(lim, EndTime(stretch, 0.0) - stretch[0].at));
  }

  lemma AllowanceIs(lim: Limits, T: real)
    ensures Allowance(lim, T) == lim.limit as real + T * lim.rate
  {}

  // ----- The condition is exact -----

  function Burst(ip: string, at: real, n: nat): seq<Event> {
    if n == 0 then [] else [Request(ip, at)] + Burst(ip, at, n - 1)
  }

  lemma {:induction false} BurstChronological(ip: string, at: real, n: nat, now: real, rest: seq<Event>)
    requires now <= at && Chronological(rest, at)
    ensures Chronological(Burst(ip, at, n) + rest, now)
  {
    if n == 0 {
      assert Burst(ip, at, n) + rest == rest;
      assert rest == [] || rest[0].at >= at;
    } else {
      BurstChronological(ip, at, n - 1, at, rest);
      assert (Burst(ip, at, n) + rest)[1..] == Burst(ip, at, n - 1) + rest;
    }
  }

  /** In a burst, the k-th request is admitted as long as k tokens are there. */
  lemma {:induction false} BurstAnswers(lim: Limits, visitors: Visitors, ip: string, at: real, n: nat,
                                        evict: bool, k: nat)
    requires lim.rate >= 0.0 && Sane(lim, visitors, at) && k < n
    ensures |Answers(lim, visitors, Burst(ip, at, n), evict)| == n
    ensures Answers(lim, visitors, Burst(ip, at, n), evict)[k] <==> Level(lim, visitors, ip, at) >= k as real + 1.0
    decreases n
  {
    var burst := Burst(ip, at, n);
    var (next, answer) := Handle(lim, visitors, burst[0], evict);
    assert burst[1..] == Burst(ip, at, n - 1);
    HandleSane(lim, visitors, burst[0], evict, at);
    Spent(lim, visitors, at, burst[0], ip);
    LevelGrows(lim, visitors, ip, at, at);
    if n > 1 {
      BurstAnswers(lim, next, ip, at, n - 1, evict, if k > 0 then k - 1 else 0);
    }
  }

  /** An address not seen before is admitted `limit` requests at once, and no more. */
  lemma FirstBurst(lim: Limits, visitors: Visitors, ip: string, at: real, n: nat, evict: bool, k: nat)
    requires lim.Valid() && Sane(lim, visitors, at) && ip !in visitors && k < n
    ensures |Answers(lim, visitors, Burst(ip, at, n), evict)| == n
    ensures Answers(lim, visitors, Burst(ip, at, n), evict)[k] <==> k < lim.limit
  {
    BurstAnswers(lim, visitors, ip, at, n, evict, k);
  }

  lemma FlowCovers(lim: Limits, elapsed: real, k: nat)
    requires lim.Valid()
    ensures Flow(lim, elapsed) >= k as real <==> elapsed * lim.limit as real >= k as real * lim.window
  {
    assert elapsed * lim.limit as real == Flow(lim, elapsed) * lim.window;
    var gap := Flow(lim, elapsed) - k as real;
    assert gap * lim.window == elapsed * lim.limit as real - k as real * lim.window;
    assert gap >= 0.0 ==> gap * lim.window >= 0.0;
    assert gap < 0.0 ==> gap * lim.window < 0.0;
  }

  /** After that burst, and `elapsed` seconds without a request, of the next burst as many are
      admitted as have flowed in, evenly over the window, but at most `limit`. */
  lemma NextBurst(lim: Limits, ip: string, at: real, elapsed: real, n: nat, evict: bool, k: nat)
    requires lim.Valid() && lim.limit > 0 && elapsed >= 0.0 && k < n
    ensures var answers := Answers(lim, map[], Burst(ip, at, lim.limit) + Burst(ip, at + elapsed, n), evict);
            && |answers| == lim.limit + n
            && (answers[lim.limit + k] <==>
                  k < lim.limit && elapsed * lim.limit as real >= (k + 1) as real * lim.window)
  {
    var first, second := Burst(ip, at, lim.limit), Burst(ip, at + elapsed, n);
    var drained := After(lim, map[], first, evict);
    AnswersConcat(lim, map[], first, second, evict);
    BurstAnswers(lim, map[], ip, at, lim.limit, evict, 0);
    BurstDrains(lim, map[], ip, at, lim.limit, evict);
    BurstOnlySees(lim, map[], ip, at, lim.limit, evict);
    BurstAnswers(lim, drained, ip, at + elapsed, n, evict, k);
    FlowCovers(lim, elapsed, k + 1);
    hide Flow;
    assert drained[ip].bucket == Bucket(0.0, at);
  }

  /** A burst that the bucket covers takes as many tokens as it has requests. */
  lemma {:induction false} BurstDrains(lim: Limits, visitors: Visitors, ip: string, at: real, n: nat, evict: bool)
    requires lim.rate >= 0.0 && Sane(lim, visitors, at) && Level(lim, visitors, ip, at) >= n as real && n > 0
    ensures var v := After(lim, visitors, Burst(ip, at, n), evict);
            ip in v && v[ip] == Visitor(Bucket(Level(lim, visitors, ip, at) - n as real, at), at)
    decreases n
  {
    var burst := Burst(ip, at, n);
    var (next, answer) := Handle(lim, visitors, burst[0], evict);
    assert burst[1..] == Burst(ip, at, n - 1);
    HandleSane(lim, visitors, burst[0], evict, at);
    Spent(lim, visitors, at, burst[0], ip);
    if n > 1 {
      BurstDrains(lim, next, ip, at, n - 1, evict);
    } else {
      assert burst[1..] == [];
    }
  }

  lemma {:induction false} AnswersConcat(lim: Limits, visitors: Visitors, a: seq<Event>, b: seq<Event>, evict: bool)
    requires lim.Valid()
    ensures Answers(lim, visitors, a + b, evict)
         == Answers(lim, visitors, a, evict) + Answers(lim, After(lim, visitors, a, evict), b, evict)
    decreases |a|
  {
    if a == [] {
      assert a + b == b;
    } else {
      assert (a + b)[1..] == a[1..] + b;
      AnswersConcat(lim, Handle(lim, visitors, a[0], evict).0, a[1..], b, evict);
    }
  }

  /** A full burst, an eviction while the bucket is still filling, and another burst. */
  function Exposure(lim: Limits, at: real): seq<Event> {
    Burst("a", 0.0, lim.limit) + ([Sweep(at)] + Burst("a", at, lim.limit))
  }

  lemma ExposureAnswers(lim: Limits, at: real, evict: bool)
    requires lim.Valid() && lim.limit > 0 && VISITOR_TTL < at < lim.window
    ensures var a := Answers(lim, map[], Exposure(lim, at), evict); |a| == 2 * lim.limit && (a[|a| - 1] <==> evict)
  {
    var n := lim.limit;
    var first, second := Burst("a", 0.0, n), Burst("a", at, n);
    var drained := After(lim, map[], first, evict);
    BurstDrains(lim, map[], "a", 0.0, n, evict);
    BurstAnswers(lim, map[], "a", 0.0, n, evict, 0);
    AnswersConcat(lim, map[], first, [Sweep(at)] + second, evict);
    var swept := Handle(lim, drained, Sweep(at), evict).0;
    assert ([Sweep(at)] + second)[1..] == second;
    BurstOnlySees(lim, map[], "a", 0.0, n, evict);
    Refill(lim, at);
    assert Level(lim, swept, "a", at) == if evict then n as real else Flow(lim, at);
    BurstAnswers(lim, swept, "a", at, n, evict, n - 1);
  }

  /** A burst of one address leaves no other visitor behind. */
  lemma {:induction false} BurstOnlySees(lim: Limits, visitors: Visitors, ip: string, at: real, n: nat, evict: bool)
    requires lim.Valid() && Sane(lim, visitors, at) && visitors.Keys <= {ip}
    ensures After(lim, visitors, Burst(ip, at, n), evict).Keys <= {ip}
    ensures Sane(lim, After(lim, visitors, Burst(ip, at, n), evict), at)
    decreases n
  {
    if n > 0 {
      var burst := Burst(ip, at, n);
      assert burst[1..] == Burst(ip, at, n - 1);
      HandleSane(lim, visitors, burst[0], evict, at);
      BurstOnlySees(lim, Handle(lim, visitors, burst[0], evict).0, ip, at, n - 1, evict);
    }
  }

  /** Eviction is unobservable on every trace exactly when the window is no longer than
      the idle time after which visitors are evicted (or the limit is 0). */
  lemma EvictionUnobservable(lim: Limits)
    requires lim.Valid()
    ensures lim.window <= 180.0 || lim.limit == 0 <==>
            forall trace :: Chronological(trace, 0.0) ==>
              Answers(lim, map[], trace, true) == Answers(lim, map[], trace, false)
  {
    if Harmless(lim) {
      forall trace | Chronological(trace, 0.0)
        ensures Answers(lim, map[], trace, true) == Answers(lim, map[], trace, false)
      {
        TraceAgrees(lim, map[], map[], 0.0, trace);
      }
    } else {
      var at := (VISITOR_TTL + lim.window) / 2.0;
      ExposureAnswers(lim, at, true);
      ExposureAnswers(lim, at, false);
      var second := [Sweep(at)] + Burst("a", at, lim.limit);
      assert second[1..] == Burst("a", at, lim.limit);
      BurstChronological("a", at, lim.limit, at, []);
      assert Burst("a", at, lim.limit) + [] == Burst("a", at, lim.limit);
      BurstChronological("a", 0.0, lim.limit, 0.0, second);
      assert Chronological(Exposure(lim, at), 0.0);
    }
  }
}
