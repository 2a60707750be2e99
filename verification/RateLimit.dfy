/**
 The in-memory rate limiter. Times are whole nanoseconds, as `time.Time` and
 `time.Duration` count them; token counts are floating-point numbers without rounding.
 */
module RateLimit {
  import opened Wrappers

  // ----- Floating point, but for rounding -----

  datatype Float = Num(x: real) | Infinite(negative: bool) | NaN

  /** What Go makes of an infinity or NaN converted to an integer is up to the implementation. */
  const UNSPECIFIED: int

  function Sum(a: Float, b: Float): Float {
    match (a, b)
    case (Num(x), Num(y)) => Num(x + y)
    case (Infinite(m), Infinite(n)) => if m == n then a else NaN
    case (Infinite(_), Num(_)) => a
    case (Num(_), Infinite(_)) => b
    case (_, _) => NaN
  }

  function Minus(a: Float): Float {
    match a
    case Num(x) => Num(-x)
    case Infinite(m) => Infinite(!m)
    case NaN => NaN
  }

  /** `a` times a number. */
  function Times(a: Float, y: real): Float {
    match a
    case Num(x) => Num(x * y)
    case Infinite(m) => if y == 0.0 then NaN else Infinite(m != (y < 0.0))
    case NaN => NaN
  }

  /** A quotient; zeros count as positive, and the sign of an infinity from a zero never matters below. */
  function Over(a: Float, b: Float): Float {
    match (a, b)
    case (Num(x), Num(y)) => if y != 0.0 then Num(x / y) else if x == 0.0 then NaN else Infinite(x < 0.0)
    case (Infinite(m), Num(y)) => Infinite(m != (y < 0.0))
    case (Num(_), Infinite(_)) => Num(0.0)
    case (_, _) => NaN
  }

  predicate AtLeast(a: Float, y: real) {
    match a
    case Num(x) => x >= y
    case Infinite(m) => !m
    case NaN => false
  }

  predicate Exceeds(a: Float, y: real) {
    AtLeast(a, y) && a != Num(y)
  }

  /** Go's conversion of a float to an integer. */
  function Trunc(x: real): int {
    if x >= 0.0 then x.Floor else -(-x).Floor
  }

  function Truncated(a: Float): int {
    if a.Num? then Trunc(a.x) else UNSPECIFIED
  }

  // ----- Policies and entries -----

  datatype Policy = Policy(scope: string, key: string, limit: int, window: int, burst: int, algorithm: string)
  {
    /** A limit on a positive length of time, as every caller of the limiter sets it. */
    predicate Valid() {
      limit > 0 && window > 0
    }

    predicate IsTokenBucket() {
      algorithm == "token_bucket"
    }

    function Capacity(): int {
      if burst <= 0 then limit else burst
    }

    /** Tokens per nanosecond. */
    function Rate(): real
      requires window != 0
    {
      limit as real / window as real
    }

    function FloatRate(): Float {
      Over(Num(limit as real), Num(window as real))
    }
  }

  datatype Verdict = Verdict(allowed: bool, remaining: int, retryAfter: int)

  datatype SwEntry = SwEntry(window: int, prev: int, curr: int)

  datatype TbEntry = TbEntry(tokens: Float, last: int)

  // ----- One request on one bucket -----

  /** The estimate the limit is compared with: the previous window fades as this one passes. */
  function Estimate(e: SwEntry, p: Policy, now: int): Float {
    var elapsed := Over(Num((now - e.window) as real), Num(p.window as real));
    Sum(Times(Sum(Num(1.0), Minus(elapsed)), e.prev as real), Num(e.curr as real))
  }

  function Present(e: Option<SwEntry>, p: Policy, now: int): SwEntry {
    if e == None || now - e.value.window >= p.window then SwEntry(now, 0, 0) else e.value
  }

  function Slide(e: Option<SwEntry>, p: Policy, now: int): (SwEntry, Verdict) {
    var e' := Present(e, p, now);
    var current := Estimate(e', p, now);
    if AtLeast(current, p.limit as real) then
      (e', Verdict(false, 0, p.window - (now - e'.window)))
    else
      (e'.(curr := e'.curr + 1),
       Verdict(true, Truncated(Sum(Sum(Num(p.limit as real), Minus(current)), Num(-1.0))), 0))
  }

  function Refill(e: Option<TbEntry>, p: Policy, now: int): Float {
    var cap := p.Capacity() as real;
    var was := if e == None then TbEntry(Num(cap), now) else e.value;
    var tokens := Sum(was.tokens, Times(p.FloatRate(), (now - was.last) as real));
    if Exceeds(tokens, cap) then Num(cap) else tokens
  }

  function Take(e: Option<TbEntry>, p: Policy, now: int): (TbEntry, Verdict) {
    var tokens := Refill(e, p, now);
    if AtLeast(tokens, 1.0) then
      var left := Sum(tokens, Num(-1.0));
      (TbEntry(left, now), Verdict(true, Truncated(left), 0))
    else
      (TbEntry(tokens, now), Verdict(false, 0, Truncated(Over(Sum(Num(1.0), Minus(tokens)), p.FloatRate()))))
  }

  // ----- The same in real numbers, where nothing is divided by zero -----

  function Weighted(e: SwEntry, p: Policy, now: int): real
    requires p.window != 0
  {
    e.prev as real * (1.0 - (now - e.window) as real / p.window as real) + e.curr as real
  }

  lemma EstimateIsReal(e: SwEntry, p: Policy, now: int)
    requires p.window != 0
    ensures Estimate(e, p, now) == Num(Weighted(e, p, now))
  {
    var share := (now - e.window) as real / p.window as real;
    assert Over(Num((now - e.window) as real), Num(p.window as real)) == Num(share);
    assert (1.0 + -share) * e.prev as real == e.prev as real * (1.0 - share);
  }

  lemma LeftIsReal(limit: real, current: real)
    ensures Truncated(Sum(Sum(Num(limit), Minus(Num(current))), Num(-1.0))) == Trunc(limit - current - 1.0)
    ensures AtLeast(Num(current), limit) <==> current >= limit
  {
  }

  lemma SlideIsReal(e: Option<SwEntry>, p: Policy, now: int)
    requires p.window != 0
    ensures var e' := Present(e, p, now);
            var current := Weighted(e', p, now);
            Slide(e, p, now) ==
              if current >= p.limit as real then (e', Verdict(false, 0, p.window - (now - e'.window)))
              else (e'.(curr := e'.curr + 1), Verdict(true, Trunc(p.limit as real - current - 1.0), 0))
  {
    var e' := Present(e, p, now);
    hide Present, Estimate, Weighted, Trunc, Truncated, Sum, Minus, AtLeast;
    EstimateIsReal(e', p, now);
    LeftIsReal(p.limit as real, Weighted(e', p, now));
  }

  /** The tokens of an entry, if they are a number. */
  function Level(e: TbEntry): real {
    if e.tokens.Num? then e.tokens.x else 0.0
  }

  predicate Plain(e: Option<TbEntry>) {
    e.Some? ==> e.value.tokens.Num?
  }

  function Grown(e: TbEntry, rate: real, now: int): real {
    Level(e) + rate * (now - e.last) as real
  }

  lemma StillFull(tokens: real, rate: real, now: int)
    ensures Grown(TbEntry(Num(tokens), now), rate, now) == tokens
  {
  }

  function Refilled(e: Option<TbEntry>, p: Policy, now: int): real
    requires p.window != 0
  {
    var cap := p.Capacity() as real;
    var tokens := if e == None then cap else Grown(e.value, p.Rate(), now);
    if tokens > cap then cap else tokens
  }

  lemma RateIsReal(p: Policy)
    requires p.window != 0
    ensures p.FloatRate() == Num(p.Rate())
    ensures p.limit != 0 ==> p.Rate() != 0.0
  {
    assert p.Rate() * p.window as real == p.limit as real;
  }

  lemma NumbersRefilled(tokens: real, rate: real, gap: real, cap: real)
    ensures var t := tokens + rate * gap;
            && Sum(Num(tokens), Times(Num(rate), gap)) == Num(t)
            && (Exceeds(Num(t), cap) <==> t > cap)
  {
  }

  lemma RefillIsReal(e: Option<TbEntry>, p: Policy, now: int)
    requires p.window != 0 && Plain(e)
    ensures Refill(e, p, now) == Num(Refilled(e, p, now))
  {
    hide Policy.Rate, Policy.FloatRate, Policy.Capacity, Sum, Times, Exceeds;
    RateIsReal(p);
    var cap := p.Capacity() as real;
    StillFull(cap, p.Rate(), now);
    var was := if e == None then TbEntry(Num(cap), now) else e.value;
    NumbersRefilled(Level(was), p.Rate(), (now - was.last) as real, cap);
    assert Grown(was, p.Rate(), now) == Level(was) + p.Rate() * (now - was.last) as real;
    hide Grown;
    assert was.tokens == Num(Level(was));
  }

  lemma NumbersTaken(tokens: real, rate: real)
    requires rate != 0.0
    ensures AtLeast(Num(tokens), 1.0) <==> tokens >= 1.0
    ensures Sum(Num(tokens), Num(-1.0)) == Num(tokens - 1.0)
    ensures Truncated(Num(tokens - 1.0)) == Trunc(tokens - 1.0)
    ensures Truncated(Over(Sum(Num(1.0), Minus(Num(tokens))), Num(rate))) == Trunc((1.0 - tokens) / rate)
  {
    assert Sum(Num(1.0), Minus(Num(tokens))) == Num(1.0 - tokens);
    hide Trunc;
  }

  lemma TakeIsReal(e: Option<TbEntry>, p: Policy, now: int)
    requires p.window != 0 && p.limit != 0 && Plain(e)
    ensures var tokens := Refilled(e, p, now);
            Take(e, p, now) ==
              if tokens >= 1.0 then (TbEntry(Num(tokens - 1.0), now), Verdict(true, Trunc(tokens - 1.0), 0))
              else (TbEntry(Num(tokens), now), Verdict(false, 0, Trunc((1.0 - tokens) / p.Rate())))
  {
    hide Policy.Rate, Policy.FloatRate, Refill, Refilled, Trunc, Truncated, Sum, Minus, Over, AtLeast;
    RefillIsReal(e, p, now);
    RateIsReal(p);
    NumbersTaken(Refilled(e, p, now), p.Rate());
  }

  // ----- The whole backend -----

  datatype Counters = Counters(sw: map<string, SwEntry>, tb: map<string, TbEntry>)

  function Lookup<K(==), V>(m: map<K, V>, k: K): Option<V> {
    if k in m then Some(m[k]) else None
  }

  function Request(m: Counters, bucket: string, p: Policy, now: int): (Counters, Verdict) {
    if p.IsTokenBucket() then
      var (e, v) := Take(Lookup(m.tb, bucket), p, now);
      (m.(tb := m.tb[bucket := e]), v)
    else
      var (e, v) := Slide(Lookup(m.sw, bucket), p, now);
      (m.(sw := m.sw[bucket := e]), v)
  }

  function Pruned(m: Counters, cutoff: int): Counters {
    Counters(map k | k in m.sw && m.sw[k].window >= cutoff :: m.sw[k],
             map k | k in m.tb && m.tb[k].last >= cutoff :: m.tb[k])
  }

  class MemoryBackend {
    var sw: map<string, SwEntry>
    var tb: map<string, TbEntry>

    function State(): Counters
      reads this
    {
      Counters(sw, tb)
    }

    constructor ()
      ensures State() == Counters(map[], map[])
    {
      sw, tb := map[], map[];
    }

    method SlidingWindow(bucket: string, p: Policy, now: int) returns (v: Verdict)
      modifies this`sw
      ensures var (e, r) := Slide(Lookup(old(sw), bucket), p, now);
              sw == old(sw)[bucket := e] && v == r
    {
      hide Estimate, Truncated;
      if bucket !in sw || now - sw[bucket].window >= p.window {
        sw := sw[bucket := SwEntry(now, 0, 0)];
      }
      var e := sw[bucket];
      var current := Estimate(e, p, now);
      if AtLeast(current, p.limit as real) {
        return Verdict(false, 0, p.window - (now - e.window));
      }
      sw := sw[bucket := e.(curr := e.curr + 1)];
      return Verdict(true, Truncated(Sum(Sum(Num(p.limit as real), Minus(current)), Num(-1.0))), 0);
    }

    method TokenBucket(bucket: string, p: Policy, now: int) returns (v: Verdict)
      modifies this`tb
      ensures var (e, r) := Take(Lookup(old(tb), bucket), p, now);
              tb == old(tb)[bucket := e] && v == r
    {
      hide Sum, Times, Over, Truncated, AtLeast, Exceeds, Policy.FloatRate;
      var burst := p.burst;
      if burst <= 0 { burst := p.limit; }
      var rate := p.FloatRate();
      if bucket !in tb {
        tb := tb[bucket := TbEntry(Num(burst as real), now)];
      }
      var e := tb[bucket];
      var tokens := Sum(e.tokens, Times(rate, (now - e.last) as real));
      if Exceeds(tokens, burst as real) { tokens := Num(burst as real); }
      if AtLeast(tokens, 1.0) {
        tokens := Sum(tokens, Num(-1.0));
        tb := tb[bucket := TbEntry(tokens, now)];
        return Verdict(true, Truncated(tokens), 0);
      }
      tb := tb[bucket := TbEntry(tokens, now)];
      return Verdict(false, 0, Truncated(Over(Sum(Num(1.0), Minus(tokens)), rate)));
    }

    /** `None` when the request's context is already done. */
    method Allow(done: bool, bucket: string, p: Policy, now: int) returns (v: Option<Verdict>)
      modifies this
      ensures done ==> v == None && State() == old(State())
      ensures !done ==> var (m, r) := Request(old(State()), bucket, p, now); State() == m && v == Some(r)
    {
      if done { return None; }
      var r: Verdict;
      if p.IsTokenBucket() {
        r := TokenBucket(bucket, p, now);
      } else {
        r := SlidingWindow(bucket, p, now);
      }
      v := Some(r);
    }

    method PruneWindows(cutoff: int)
      modifies this`sw
      ensures sw == Pruned(old(State()), cutoff).sw
    {
      ghost var was := sw;
      var keys := sw.Keys;
      while keys != {}
        invariant keys <= sw.Keys
        invariant forall k :: k in sw ==> k in was && sw[k] == was[k]
        invariant forall k :: k in was && k !in sw ==> was[k].window < cutoff
        invariant forall k :: k in sw && k !in keys ==> was[k].window >= cutoff
        decreases keys
      {
        var k :| k in keys;
        if sw[k].window < cutoff { sw := sw - {k}; }
        keys := keys - {k};
      }
    }

    method PruneBuckets(cutoff: int)
      modifies this`tb
      ensures tb == Pruned(old(State()), cutoff).tb
    {
      ghost var was := tb;
      var keys := tb.Keys;
      while keys != {}
        invariant keys <= tb.Keys
        invariant forall k :: k in tb ==> k in was && tb[k] == was[k]
        invariant forall k :: k in was && k !in tb ==> was[k].last < cutoff
        invariant forall k :: k in tb && k !in keys ==> was[k].last >= cutoff
        decreases keys
      {
        var k :| k in keys;
        if tb[k].last < cutoff { tb := tb - {k}; }
        keys := keys - {k};
      }
    }

    method Prune(maxAge: int, now: int)
      modifies this
      ensures State() == Pruned(old(State()), now - maxAge)
    {
      PruneWindows(now - maxAge);
      PruneBuckets(now - maxAge);
    }
  }

  // ----- The limiter in front of it -----

  function BucketKey(p: Policy): string {
    "rl:" + p.scope + ":" + p.key
  }

  const SCOPES: set<string> := {"ip", "api_key", "graphql_op", "ws_message"}

  lemma {:induction false} FirstColon(a: string, x: string, b: string, y: string)
    requires ':' !in a && ':' !in b && a + ":" + x == b + ":" + y
    ensures a == b && x == y
  {
    if a == [] || b == [] {
      assert (a + ":" + x)[0] == (b + ":" + y)[0];
      assert a == b;
      assert x == (a + ":" + x)[1..];
      assert y == (b + ":" + y)[1..];
    } else {
      assert (a + ":" + x)[0] == (b + ":" + y)[0];
      assert (a + ":" + x)[1..] == a[1..] + ":" + x;
      assert (b + ":" + y)[1..] == b[1..] + ":" + y;
      FirstColon(a[1..], x, b[1..], y);
      assert a == [a[0]] + a[1..] && b == [b[0]] + b[1..];
    }
  }

  lemma NoColon(scope: string)
    requires scope in SCOPES
    ensures ':' !in scope
  {
  }

  /** Two policies share a bucket only if they agree on scope and key, whatever the keys contain. */
  lemma BucketKeyInjective(p: Policy, q: Policy)
    requires p.scope in SCOPES && q.scope in SCOPES
    ensures BucketKey(p) == BucketKey(q) <==> p.scope == q.scope && p.key == q.key
  {
    hide SCOPES;
    NoColon(p.scope);
    NoColon(q.scope);
    if BucketKey(p) == BucketKey(q) {
      assert BucketKey(p)[3..] == p.scope + ":" + p.key;
      assert BucketKey(q)[3..] == q.scope + ":" + q.key;
      FirstColon(p.scope, p.key, q.scope, q.key);
    }
  }

  /** A request never touches another bucket's counters. */
  lemma OtherBucketsKept(m: Counters, bucket: string, p: Policy, now: int, other: string)
    requires other != bucket
    ensures var m' := Request(m, bucket, p, now).0;
            Lookup(m'.sw, other) == Lookup(m.sw, other) && Lookup(m'.tb, other) == Lookup(m.tb, other)
  {
  }

  const UNLIMITED := Verdict(true, -1, 0)

  function AllowedBy(m: Counters, done: bool, p: Policy, now: int): (Counters, Verdict) {
    if p.limit <= 0 || done then (m, UNLIMITED) else Request(m, BucketKey(p), p, now)
  }

  /** The counters after the first `n` policies of a check have each been charged in turn. */
  function ChargedBy(m: Counters, done: bool, ps: seq<Policy>, n: nat, now: int): Counters
    requires n <= |ps|
  {
    if n == 0 then m else AllowedBy(ChargedBy(m, done, ps, n - 1, now), done, ps[n - 1], now).0
  }

  function VerdictOn(m: Counters, done: bool, ps: seq<Policy>, i: nat, now: int): Verdict
    requires i < |ps|
  {
    AllowedBy(ChargedBy(m, done, ps, i, now), done, ps[i], now).1
  }

  class Limiter {
    const backend: MemoryBackend

    constructor (backend: MemoryBackend)
      ensures this.backend == backend
    {
      this.backend := backend;
    }

    /** Storage errors let the request through. */
    method Allow(done: bool, p: Policy, now: int) returns (v: Verdict)
      modifies backend
      ensures (backend.State(), v) == AllowedBy(old(backend.State()), done, p, now)
    {
      if p.limit <= 0 { return UNLIMITED; }
      var res := backend.Allow(done, BucketKey(p), p, now);
      if res == None { return UNLIMITED; }
      return res.value;
    }

    /**
     Stops at the first policy that denies: that policy and those before it have been
     charged, those after it have not.
     */
    method Check(done: bool, ps: seq<Policy>, now: int) returns (v: Verdict, scope: string, ghost charged: nat)
      modifies backend
      ensures charged <= |ps| && backend.State() == ChargedBy(old(backend.State()), done, ps, charged, now)
      ensures forall i :: 0 <= i < (if v.allowed then |ps| else charged - 1)
                          ==> VerdictOn(old(backend.State()), done, ps, i, now).allowed
      ensures v.allowed ==> v == UNLIMITED && scope == "" && charged == |ps|
      ensures !v.allowed ==> && charged > 0 && scope == ps[charged - 1].scope
                             && v == VerdictOn(old(backend.State()), done, ps, charged - 1, now)
    {
      hide Request, BucketKey;
      ghost var m0 := backend.State();
      for i := 0 to |ps|
        invariant backend.State() == ChargedBy(m0, done, ps, i, now)
        invariant forall j :: 0 <= j < i ==> VerdictOn(m0, done, ps, j, now).allowed
      {
        var r := Allow(done, ps[i], now);
        if !r.allowed {
          return r, ps[i].scope, i + 1;
        }
      }
      return UNLIMITED, "", |ps|;
    }
  }
}
