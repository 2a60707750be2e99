/** The token bucket of the in-memory limiter. */
module TokenBucket {
  import opened Wrappers
  import opened RateLimit
  import opened RateLimitRuns

  predicate Filled(e: Option<TbEntry>, p: Policy) {
    e.Some? ==> e.value.tokens.Num? && 0.0 <= e.value.tokens.x <= p.Capacity() as real
  }

  lemma RateIsPositive(p: Policy)
    requires p.Valid()
    ensures p.Rate() > 0.0 && p.Rate() * p.window as real == p.limit as real
  {
  }

  lemma Scale(r: real, x: real, y: real)
    requires r > 0.0
    ensures r * (x + y) == r * x + r * y
    ensures x >= 0.0 ==> r * x >= 0.0
    ensures x <= y ==> r * x <= r * y
    ensures x < y ==> r * x < r * y
  {
  }

  /** Tokens stay between empty and full. */
  lemma TakeKeepsFilled(e: Option<TbEntry>, p: Policy, now: int)
    requires p.Valid() && Filled(e, p) && (e.Some? ==> e.value.last <= now)
    ensures Filled(Some(Take(e, p, now).0), p)
    ensures 0.0 <= Refilled(e, p, now) <= p.Capacity() as real
  {
    RateIsPositive(p);
    TakeIsReal(e, p, now);
    hide Policy.Rate, Take;
    if e.Some? {
      Scale(p.Rate(), (now - e.value.last) as real, 0.0);
    }
  }

  /** The tokens a bucket will have had to give by `t`, if it is next asked at `now`. */
  function Budget(e: Option<TbEntry>, p: Policy, now: int, t: int): real
    requires p.Valid()
  {
    Refilled(e, p, now) + p.Rate() * (t - now) as real
  }

  lemma GrownLater(e: TbEntry, r: real, now: int, next: int)
    requires r > 0.0
    ensures Grown(e, r, next) == Grown(e, r, now) + r * (next - now) as real
  {
    var x, y := (now - e.last) as real, (next - now) as real;
    Scale(r, x, y);
    assert x + y == (next - e.last) as real;
  }

  /** Asking later loses what overflows the bucket; it never gains. */
  lemma BudgetShrinks(e: Option<TbEntry>, p: Policy, now: int, next: int, t: int)
    requires p.Valid() && now <= next
    requires e.Some? ==> e.value.last <= now
    ensures Budget(e, p, next, t) <= Budget(e, p, now, t)
    ensures Refilled(e, p, next) >= Refilled(e, p, now)
  {
    RateIsPositive(p);
    var r, y, z := p.Rate(), (next - now) as real, (t - next) as real;
    hide Policy.Rate, Grown;
    Scale(r, y, z);
    assert y + z == (t - now) as real;
    if e.Some? {
      GrownLater(e.value, r, now, next);
    }
  }

  lemma BudgetIsNonnegative(e: Option<TbEntry>, p: Policy, now: int, t: int)
    requires p.Valid() && Filled(e, p) && (e.Some? ==> e.value.last <= now) && now <= t
    ensures Budget(e, p, now, t) >= 0.0
  {
    hide Take, Refilled, Filled, Policy.Rate, Policy.Capacity;
    TakeKeepsFilled(e, p, now);
    RateIsPositive(p);
    Scale(p.Rate(), (t - now) as real, 0.0);
  }

  lemma BudgetAfterTake(e: Option<TbEntry>, p: Policy, now: int, t: int)
    requires p.Valid() && Plain(e)
    ensures Plain(Some(Take(e, p, now).0))
    ensures var (e', v) := Take(e, p, now);
            Budget(Some(e'), p, now, t) == Budget(e, p, now, t) - if v.allowed then 1.0 else 0.0
    ensures Take(e, p, now).1.allowed <==> Refilled(e, p, now) >= 1.0
  {
    TakeIsReal(e, p, now);
    hide Take;
    StillFull(Level(Take(e, p, now).0), p.Rate(), now);
  }

  lemma DividedReal(a: real, l: real, w: real, c: real)
    requires w > 0.0 && a * l >= w * c
    ensures (l / w) * a >= c
  {
    var r := l / w;
    assert r * w == l;
    assert w * (r * a) == a * l;
    if r * a < c {
      Scale(w, r * a, c);
    }
  }

  lemma Divided(age: int, limit: int, window: int, cap: int)
    requires window > 0 && age * limit >= window * cap
    ensures (limit as real / window as real) * age as real >= cap as real
  {
    assert age as real * limit as real == (age * limit) as real;
    assert window as real * cap as real == (window * cap) as real;
    DividedReal(age as real, limit as real, window as real, cap as real);
  }

  lemma DripsFill(p: Policy, age: int, gap: int)
    requires p.Valid() && age * p.limit >= p.window * p.Capacity() && age <= gap
    ensures p.Rate() * gap as real >= p.Capacity() as real
  {
    Divided(age, p.limit, p.window, p.Capacity());
    RateIsPositive(p);
    assert p.Rate() * age as real >= p.Capacity() as real;
    hide Policy.Rate, Policy.Capacity;
    Scale(p.Rate(), age as real, gap as real);
  }

  /** A bucket left alone long enough is as good as a new one. */
  lemma FullAgain(e: TbEntry, p: Policy, maxAge: int, now: int)
    requires p.Valid() && p.IsTokenBucket() && Filled(Some(e), p) && Harmless(maxAge, p)
    requires now - e.last > maxAge
    ensures Refilled(Some(e), p, now) == p.Capacity() as real
  {
    var gap := now - e.last;
    RateIsPositive(p);
    DripsFill(p, maxAge + 1, gap);
    hide Policy.Rate, Policy.Capacity;
    assert Grown(e, p.Rate(), now) == Level(e) + p.Rate() * gap as real;
  }

  /** One operation of a run spends a token exactly when it grants on the bucket. */
  lemma StepSpends(m: Counters, op: Op, bucket: string, p: Policy, t: int)
    requires op.Ask? && op.bucket == bucket ==> op.policy == p
    requires op.Prune? ==> Harmless(op.maxAge, p)
    requires p.Valid() && p.IsTokenBucket()
    requires Filled(Lookup(m.tb, bucket), p) && (bucket in m.tb ==> m.tb[bucket].last <= op.now)
    ensures op.Ask? ==> |Apply(m, op).1| == 1
    ensures var (m', v) := Apply(m, op);
            var granted := op.Ask? && op.bucket == bucket && v[0].allowed;
            && Filled(Lookup(m'.tb, bucket), p) && (bucket in m'.tb ==> m'.tb[bucket].last <= op.now)
            && Budget(Lookup(m'.tb, bucket), p, op.now, t)
               == Budget(Lookup(m.tb, bucket), p, op.now, t) - if granted then 1.0 else 0.0
  {
    var e, m' := Lookup(m.tb, bucket), Apply(m, op).0;
    if op.Ask? && op.bucket == bucket {
      TakeKeepsFilled(e, p, op.now);
      BudgetAfterTake(e, p, op.now, t);
    } else if op.Ask? {
      OtherBucketsKept(m, op.bucket, op.policy, op.now, bucket);
    } else if bucket in m.tb && bucket !in m'.tb {
      FullAgain(m.tb[bucket], p, op.maxAge, op.now);
    }
  }

  lemma StepKeepsFilled(m: Counters, op: Op, bucket: string, p: Policy)
    requires op.Ask? && op.bucket == bucket ==> op.policy == p
    requires p.Valid() && p.IsTokenBucket()
    requires Filled(Lookup(m.tb, bucket), p) && (bucket in m.tb ==> m.tb[bucket].last <= op.now)
    ensures var m' := Apply(m, op).0;
            Filled(Lookup(m'.tb, bucket), p) && (bucket in m'.tb ==> m'.tb[bucket].last <= op.now)
  {
    if op.Ask? && op.bucket == bucket {
      TakeKeepsFilled(Lookup(m.tb, bucket), p, op.now);
    } else if op.Ask? {
      OtherBucketsKept(m, op.bucket, op.policy, op.now, bucket);
    }
  }

  lemma {:induction false} RunKeepsFilled(m: Counters, ops: seq<Op>, bucket: string, p: Policy, now: int)
    requires Timely(ops, now) && PolicyOn(ops, bucket, p) && p.Valid() && p.IsTokenBucket()
    requires Filled(Lookup(m.tb, bucket), p) && (bucket in m.tb ==> m.tb[bucket].last <= now)
    ensures Filled(Lookup(Run(m, ops).0.tb, bucket), p)
    decreases |ops|
  {
    if ops != [] {
      hide Filled, Apply;
      var op := ops[0];
      StepKeepsFilled(m, op, bucket, p);
      RunKeepsFilled(Apply(m, op).0, ops[1..], bucket, p, op.now);
    }
  }

  /** At the end of every run on one clock, whatever was pruned, a bucket holds between no tokens and its burst. */
  lemma {:induction false} TokensStayWithinBurst(ops: seq<Op>, bucket: string, p: Policy, since: int)
    requires Timely(ops, since) && PolicyOn(ops, bucket, p) && p.Valid() && p.IsTokenBucket()
    ensures var tb := Run(EMPTY, ops).0.tb;
            bucket in tb ==> tb[bucket].tokens.Num? && 0.0 <= tb[bucket].tokens.x <= p.Capacity() as real
  {
    RunKeepsFilled(EMPTY, ops, bucket, p, since);
  }

  lemma {:induction false} NoneAfter(m: Counters, ops: seq<Op>, bucket: string, a: int, b: int)
    requires forall i :: 0 <= i < |ops| ==> (i == 0 || ops[i - 1].now <= ops[i].now)
    requires ops != [] ==> ops[0].now >= b
    ensures GrantsOf(m, ops, bucket, a, b) == 0
    decreases |ops|
  {
    if ops != [] {
      assert |ops| > 1 ==> ops[0].now <= ops[1].now;
      NoneAfter(Apply(m, ops[0]).0, ops[1..], bucket, a, b);
    }
  }

  /** Counting from any two points before the run comes to the same. */
  lemma {:induction false} SameFrom(m: Counters, ops: seq<Op>, bucket: string, a: int, a': int, b: int)
    requires a <= a' && forall i :: 0 <= i < |ops| ==> a' <= ops[i].now
    ensures GrantsOf(m, ops, bucket, a, b) == GrantsOf(m, ops, bucket, a', b)
    decreases |ops|
  {
    if ops != [] {
      SameFrom(Apply(m, ops[0]).0, ops[1..], bucket, a, a', b);
    }
  }

  /**
   Grants up to time `t` never exceed the tokens the bucket can have had: what it holds at
   the next operation, and what drips in until `t`.
   */
  lemma {:induction false} GrantsWithinBudget(m: Counters, ops: seq<Op>, bucket: string, p: Policy, now: int, t: int)
    requires Timely(ops, now) && now <= t
    requires p.Valid() && p.IsTokenBucket() && PolicyOn(ops, bucket, p) && HarmlessOn(ops, p)
    requires Filled(Lookup(m.tb, bucket), p) && (bucket in m.tb ==> m.tb[bucket].last <= now)
    ensures GrantsOf(m, ops, bucket, now, t + 1) as real <= Budget(Lookup(m.tb, bucket), p, now, t)
    decreases |ops|
  {
    hide Budget, Filled, Apply, Refilled, Policy.Rate;
    var e := Lookup(m.tb, bucket);
    if ops == [] || ops[0].now > t {
      NoneAfter(m, ops, bucket, now, t + 1);
      BudgetIsNonnegative(e, p, now, t);
    } else {
      var op, rest := ops[0], ops[1..];
      BudgetShrinks(e, p, now, op.now, t);
      SameFrom(m, ops, bucket, now, op.now, t + 1);
      StepSpends(m, op, bucket, p, t);
      GrantsWithinBudget(Apply(m, op).0, rest, bucket, p, op.now, t);
    }
  }

  /** The burst and what drips in during `[s, t]`. */
  function Allowance(p: Policy, s: int, t: int): real
    requires p.Valid()
  {
    p.Capacity() as real + p.Rate() * (t - s) as real
  }

  lemma AllowanceGrows(e: Option<TbEntry>, p: Policy, s: int, from: int, t: int)
    requires p.Valid() && s <= from <= t && Filled(e, p) && (e.Some? ==> e.value.last <= from)
    ensures 0.0 <= Budget(e, p, from, t) <= Allowance(p, s, t)
  {
    hide Take, Refilled, Filled, Policy.Rate, Policy.Capacity;
    BudgetIsNonnegative(e, p, from, t);
    TakeKeepsFilled(e, p, from);
    RateIsPositive(p);
    Scale(p.Rate(), (t - from) as real, (t - s) as real);
  }

  lemma {:induction false} IntervalBoundFrom(m: Counters, ops: seq<Op>, bucket: string, p: Policy, now: int,
                                             s: int, t: int)
    requires Timely(ops, now) && s <= t
    requires p.Valid() && p.IsTokenBucket() && PolicyOn(ops, bucket, p) && HarmlessOn(ops, p)
    requires Filled(Lookup(m.tb, bucket), p) && (bucket in m.tb ==> m.tb[bucket].last <= now)
    ensures GrantsOf(m, ops, bucket, s, t + 1) as real <= Allowance(p, s, t)
    decreases |ops|
  {
    assert Filled(None, p);
    hide Filled, Apply, Refilled, Allowance;
    if ops == [] || ops[0].now > t {
      NoneAfter(m, ops, bucket, s, t + 1);
      AllowanceGrows(None, p, s, s, t);
    } else if ops[0].now < s {
      var op := ops[0];
      StepSpends(m, op, bucket, p, t);
      IntervalBoundFrom(Apply(m, op).0, ops[1..], bucket, p, op.now, s, t);
    } else {
      var from := ops[0].now;
      SameFrom(m, ops, bucket, s, from, t + 1);
      GrantsWithinBudget(m, ops, bucket, p, from, t);
      AllowanceGrows(Lookup(m.tb, bucket), p, s, from, t);
    }
  }

  /**
   Over every run from an empty limiter and every closed interval `[s, t]`, a bucket grants
   at most its burst and what drips in during the interval.
   */
  lemma IntervalBound(ops: seq<Op>, bucket: string, p: Policy, since: int, s: int, t: int)
    requires Timely(ops, since) && s <= t
    requires p.Valid() && p.IsTokenBucket() && PolicyOn(ops, bucket, p) && HarmlessOn(ops, p)
    ensures GrantsOf(EMPTY, ops, bucket, s, t + 1) as real <= Allowance(p, s, t)
  {
    IntervalBoundFrom(EMPTY, ops, bucket, p, since, s, t);
  }

  // ----- The reported wait -----

  lemma FloorBounds(x: real)
    ensures x.Floor as real <= x < x.Floor as real + 1.0
  {
  }

  lemma WaitsOut(due: real, wait: int)
    requires due > 0.0
    ensures var cut := Trunc(due);
            && cut >= 0 && cut as real <= due < cut as real + 1.0
            && (wait as real >= due <==> wait > cut || (wait == cut && due == cut as real))
  {
  }

  lemma DueExactly(missing: real, r: real, wait: real)
    requires missing > 0.0 && r > 0.0
    ensures missing / r > 0.0 && (r * wait >= missing <==> wait >= missing / r)
  {
    var due := missing / r;
    assert r * due == missing;
    Scale(r, due, wait);
    Scale(r, wait, due);
    Scale(r, due, 0.0);
  }

  /** How long the missing part of a token takes to drip in. */
  function Due(e: TbEntry, p: Policy): real
    requires p.Valid()
  {
    RateIsPositive(p);
    (1.0 - Level(e)) / p.Rate()
  }

  lemma Denied(e: Option<TbEntry>, p: Policy, now: int)
    requires p.Valid() && Filled(e, p) && (e.Some? ==> e.value.last <= now) && !Take(e, p, now).1.allowed
    ensures var (e', v) := Take(e, p, now);
            && e'.last == now && Plain(Some(e')) && Level(e') < 1.0
            && v.retryAfter == Trunc(Due(e', p))
  {
    TakeKeepsFilled(e, p, now);
    TakeIsReal(e, p, now);
    hide Policy.Rate, Trunc, Take;
  }

  lemma DueReached(e: TbEntry, p: Policy, wait: int)
    requires p.Valid() && Plain(Some(e)) && Level(e) < 1.0
    ensures Due(e, p) > 0.0
    ensures Take(Some(e), p, e.last + wait).1.allowed <==> wait as real >= Due(e, p)
  {
    hide Policy.Rate, Take;
    RateIsPositive(p);
    BudgetAfterTake(Some(e), p, e.last + wait, e.last + wait);
    DueExactly(1.0 - Level(e), p.Rate(), wait as real);
  }

  /**
   Waiting `RetryAfter` with no other request on the bucket: the duration is truncated to
   whole nanoseconds, so one nanosecond more always earns a grant, anything less never
   does, and the exact wait does if and only if nothing was truncated.
   */
  lemma RetryAfterIsExact(e: Option<TbEntry>, p: Policy, now: int, later: int)
    requires p.Valid() && Filled(e, p) && (e.Some? ==> e.value.last <= now)
    requires !Take(e, p, now).1.allowed && now <= later
    ensures var (e', v) := Take(e, p, now);
            && v.retryAfter >= 0 && v.retryAfter as real <= Due(e', p) < v.retryAfter as real + 1.0
            && (Take(Some(e'), p, later).1.allowed <==>
                  later > now + v.retryAfter || (later == now + v.retryAfter && Due(e', p) == v.retryAfter as real))
  {
    hide Take, Filled, Due, Trunc;
    var e' := Take(e, p, now).0;
    Denied(e, p, now);
    DueReached(e', p, later - now);
    WaitsOut(Due(e', p), later - now);
  }

  const SLOW := Policy("ip", "k", 3, 10, 1, "token_bucket")

  const DRAINED := Some(TbEntry(Num(0.0), 0))

  lemma SlowRefills()
    ensures SLOW.window != 0 && SLOW.limit != 0 && SLOW.Rate() == 0.3
    ensures Refilled(None, SLOW, 0) == 1.0 && Refilled(DRAINED, SLOW, 0) == 0.0 && Refilled(DRAINED, SLOW, 3) == 0.9
  {
  }

  lemma SlowWait()
    ensures Trunc(1.0 / 0.3) == 3 && Trunc(0.0) == 0
  {
    assert 3.0 < 1.0 / 0.3 < 4.0;
  }

  lemma SlowTakes()
    ensures Take(None, SLOW, 0) == (DRAINED.value, Verdict(true, 0, 0))
    ensures Take(DRAINED, SLOW, 0) == (DRAINED.value, Verdict(false, 0, 3))
    ensures !Take(DRAINED, SLOW, 3).1.allowed
  {
    hide Take, Policy.Rate, Refilled, Trunc, SLOW;
    SlowRefills();
    SlowWait();
    TakeIsReal(None, SLOW, 0);
    TakeIsReal(DRAINED, SLOW, 0);
    TakeIsReal(DRAINED, SLOW, 3);
  }

  /** A refusal at exactly `RetryAfter`: of three tokens in ten ticks, three ticks do not quite bring one. */
  lemma ExactWaitCanFail(bucket: string)
    ensures var p := Policy("ip", "k", 3, 10, 1, "token_bucket");
            var (m1, v1) := Request(EMPTY, bucket, p, 0);
            var (m2, v2) := Request(m1, bucket, p, 0);
            v1.allowed && v2 == Verdict(false, 0, 3) && !Request(m2, bucket, p, 0 + v2.retryAfter).1.allowed
  {
    SlowTakes();
    hide Take;
  }

  // ----- When the bound is reached -----

  /** A bucket that holds only what is left of a token after `d` ticks has no room for one tick more. */
  predicate Overflows(p: Policy, d: nat)
    requires p.Valid()
  {
    p.limit * d % p.window + p.limit > p.Capacity() * p.window
  }

  predicate NeverOverflows(p: Policy, len: int)
    requires p.Valid()
  {
    forall d: nat :: d < len ==> !Overflows(p, d)
  }

  lemma SplitDivision(n: nat, w: nat)
    requires w > 0
    ensures n == n / w * w + n % w
  {
  }

  lemma RoomProduct(r: nat, l: nat, c: nat, w: nat)
    requires r < w && l <= c && c >= 1
    ensures r + l <= c * w
  {
    var x, y := c - 1, w - 1;
    assert x * y >= 0;
    assert (x + 1) * (y + 1) == x * y + x + y + 1;
  }

  /** A burst as large as the limit always has room. */
  lemma RoomForAWindow(p: Policy, len: int)
    requires p.Valid() && p.limit <= p.Capacity()
    ensures NeverOverflows(p, len)
  {
    forall d: nat | d < len ensures !Overflows(p, d) {
      RoomProduct(p.limit * d % p.window, p.limit, p.Capacity(), p.window);
    }
  }

  /** Whole tokens dripped in by tick `d`, and what is left over. */
  function Whole(p: Policy, d: nat): int
    requires p.Valid()
  {
    p.limit * d / p.window
  }

  function Left(p: Policy, d: nat): real
    requires p.Valid()
  {
    (p.limit * d % p.window) as real / p.window as real
  }

  lemma Unscaled(x: real, y: real, w: real)
    requires w > 0.0
    ensures x * w == y * w <==> x == y
    ensures x * w <= y * w <==> x <= y
    ensures x * w < y * w <==> x < y
  {
  }

  lemma Distributes(x: real, y: real, w: real)
    ensures (x + y) * w == x * w + y * w
  {
  }

  lemma DripTimes(r: real, w: real, l: real, d: real)
    requires r * w == l
    ensures r * d * w == l * d
  {
  }

  lemma Fraction(r: nat, w: nat)
    requires r < w
    ensures var f := r as real / w as real; 0.0 <= f < 1.0 && f * w as real == r as real
  {
    var f := r as real / w as real;
    assert f * w as real == r as real;
    Unscaled(f, 1.0, w as real);
    Unscaled(0.0, f, w as real);
  }

  lemma RealParts(q: int, r: int, w: int, n: int)
    requires n == q * w + r
    ensures n as real == q as real * w as real + r as real
  {
    assert q as real * w as real == (q * w) as real;
  }

  lemma Division(n: nat, w: nat)
    requires w > 0
    ensures var rem := (n % w) as real / w as real;
            && 0.0 <= rem < 1.0 && n / w >= 0 && rem * w as real == (n % w) as real
            && ((n / w) as real + rem) * w as real == n as real
  {
    SplitDivision(n, w);
    Fraction(n % w, w);
    RealParts(n / w, n % w, w, n);
    Distributes((n / w) as real, (n % w) as real / w as real, w as real);
  }

  lemma Parts(p: Policy, d: nat)
    requires p.Valid()
    ensures 0.0 <= Left(p, d) < 1.0 && Whole(p, d) >= 0
    ensures Left(p, d) * p.window as real == (p.limit * d % p.window) as real
    ensures (Whole(p, d) as real + Left(p, d)) * p.window as real == (p.limit * d) as real
  {
    Division(p.limit * d, p.window);
  }

  lemma DripScaled(p: Policy, d: nat)
    requires p.Valid()
    ensures p.Rate() * d as real * p.window as real == (p.limit * d) as real
  {
    RateIsPositive(p);
    hide Policy.Rate;
    DripTimes(p.Rate(), p.window as real, p.limit as real, d as real);
    assert p.limit as real * d as real == (p.limit * d) as real;
  }

  lemma SameProduct(x: real, y: real, w: real, n: real)
    requires w > 0.0 && x * w == n && y * w == n
    ensures x == y
  {
  }

  lemma LeftIsFraction(p: Policy, d: nat)
    requires p.Valid()
    ensures 0.0 <= Left(p, d) < 1.0 && Whole(p, d) >= 0
    ensures p.Rate() * d as real == Whole(p, d) as real + Left(p, d)
  {
    hide Policy.Rate, Left, Whole;
    Parts(p, d);
    DripScaled(p, d);
    SameProduct(p.Rate() * d as real, Whole(p, d) as real + Left(p, d), p.window as real, (p.limit * d) as real);
  }

  lemma ScaledFits(r: real, left: real, cap: int, w: int, l: int, rem: int)
    requires w > 0 && r * w as real == l as real && left * w as real == rem as real
    ensures r + left <= cap as real <==> rem + l <= cap * w
  {
    Distributes(r, left, w as real);
    Unscaled(r + left, cap as real, w as real);
    assert cap as real * w as real == (cap * w) as real;
  }

  lemma FitsIff(p: Policy, d: nat)
    requires p.Valid()
    ensures !Overflows(p, d) <==> p.Rate() + Left(p, d) <= p.Capacity() as real
  {
    hide Policy.Rate, Left, Whole, Policy.Capacity;
    Parts(p, d);
    RateIsPositive(p);
    ScaledFits(p.Rate(), Left(p, d), p.Capacity(), p.window, p.limit, p.limit * d % p.window);
  }

  /** One tick on, what is left over and the drip make whole tokens and a new remainder. */
  lemma TickAdds(p: Policy, d: nat)
    requires p.Valid()
    ensures p.Rate() + Left(p, d) == (Whole(p, d + 1) - Whole(p, d)) as real + Left(p, d + 1)
    ensures Whole(p, d) <= Whole(p, d + 1)
  {
    hide Policy.Rate, Left, Whole;
    LeftIsFraction(p, d);
    LeftIsFraction(p, d + 1);
    RateIsPositive(p);
    Distributes(d as real, 1.0, p.Rate());
  }

  /** At each of the `n` ticks after `d`, as many requests as there are whole tokens. */
  function Ticks(bucket: string, p: Policy, d: nat, n: nat): (ops: seq<Op>)
    requires p.Valid()
    ensures PolicyOn(ops, bucket, p) && HarmlessOn(ops, p) && Timely(ops, d)
    decreases n
  {
    if n == 0 then [] else
    TickAdds(p, d);
    Asks(bucket, p, d + 1, Whole(p, d + 1) - Whole(p, d)) + Ticks(bucket, p, d + 1, n - 1)
  }

  lemma RefilledNext(e: Option<TbEntry>, p: Policy, t: int)
    requires p.Valid() && Refilled(e, p, t) < p.Capacity() as real
    ensures Refilled(e, p, t + 1) == if Refilled(e, p, t) + p.Rate() > p.Capacity() as real then p.Capacity() as real
                                     else Refilled(e, p, t) + p.Rate()
  {
    RateIsPositive(p);
    hide Policy.Rate, Policy.Capacity, Grown;
    GrownLater(e.value, p.Rate(), t, t + 1);
  }

  /** As many requests as there are whole tokens are all granted, and leave the fraction. */
  lemma {:induction false} AsksGranted(m: Counters, bucket: string, p: Policy, t: int, n: nat, left: real,
                                       rest: seq<Op>, a: int, b: int)
      returns (after: Counters)
    requires p.Valid() && p.IsTokenBucket() && a <= t < b
    requires 0.0 <= left < 1.0 && Plain(Lookup(m.tb, bucket))
    requires Refilled(Lookup(m.tb, bucket), p, t) == n as real + left
    ensures Plain(Lookup(after.tb, bucket)) && Refilled(Lookup(after.tb, bucket), p, t) == left
    ensures GrantsOf(m, Asks(bucket, p, t, n) + rest, bucket, a, b) == n + GrantsOf(after, rest, bucket, a, b)
    decreases n
  {
    var ops := Asks(bucket, p, t, n) + rest;
    if n == 0 {
      assert ops == rest;
      after := m;
    } else {
      assert ops[0] == Ask(bucket, p, t) && ops[1..] == Asks(bucket, p, t, n - 1) + rest;
      var m' := Apply(m, ops[0]).0;
      BudgetAfterTake(Lookup(m.tb, bucket), p, t, t);
      assert Refilled(Lookup(m'.tb, bucket), p, t) == (n - 1) as real + left;
      hide Refilled, Apply;
      after := AsksGranted(m', bucket, p, t, n - 1, left, rest, a, b);
    }
  }

  /** The tick after `d` brings exactly the whole tokens that are asked for, and the next remainder. */
  lemma TickRefills(e: Option<TbEntry>, p: Policy, d: nat)
    requires p.Valid() && p.Capacity() >= 1 && !Overflows(p, d) && Refilled(e, p, d) == Left(p, d)
    ensures Refilled(e, p, d + 1) == (Whole(p, d + 1) - Whole(p, d)) as real + Left(p, d + 1)
  {
    hide Policy.Rate, Left, Whole, Policy.Capacity, Overflows, Refilled;
    LeftIsFraction(p, d);
    TickAdds(p, d);
    FitsIff(p, d);
    RefilledNext(e, p, d);
  }

  lemma NoTicks(m: Counters, bucket: string, p: Policy, d: nat, a: int, b: int)
    requires p.Valid()
    ensures GrantsOf(m, Ticks(bucket, p, d, 0), bucket, a, b) == 0
  {
  }

  lemma {:induction false} TicksGranted(m: Counters, bucket: string, p: Policy, d: nat, n: nat, a: int, b: int)
    requires p.Valid() && p.IsTokenBucket() && p.Capacity() >= 1 && a <= d && d + n < b
    requires forall k: nat :: d <= k < d + n ==> !Overflows(p, k)
    requires Plain(Lookup(m.tb, bucket)) && Refilled(Lookup(m.tb, bucket), p, d) == Left(p, d)
    ensures GrantsOf(m, Ticks(bucket, p, d, n), bucket, a, b) == Whole(p, d + n) - Whole(p, d)
    decreases n
  {
    hide Refilled, Left, Whole, Policy.Rate, Policy.Capacity, Overflows, Harmless, PolicyOn, Timely, GrantsOf;
    if n == 0 {
      NoTicks(m, bucket, p, d, a, b);
    } else {
      LeftIsFraction(p, d + 1);
      TickAdds(p, d);
      TickRefills(Lookup(m.tb, bucket), p, d);
      var k := Whole(p, d + 1) - Whole(p, d);
      var rest := Ticks(bucket, p, d + 1, n - 1);
      var after := AsksGranted(m, bucket, p, d + 1, k, Left(p, d + 1), rest, a, b);
      TicksGranted(after, bucket, p, d + 1, n - 1, a, b);
    }
  }

  lemma AllowanceParts(p: Policy, len: nat)
    requires p.Valid()
    ensures Allowance(p, 0, len) == (p.Capacity() + Whole(p, len)) as real + Left(p, len)
  {
    hide Policy.Rate, Left, Whole;
    LeftIsFraction(p, len);
  }

  lemma NothingYet(p: Policy)
    requires p.Valid()
    ensures p.Capacity() >= 1 && Refilled(None, p, 0) == p.Capacity() as real
    ensures Left(p, 0) == 0.0 && Whole(p, 0) == 0
  {
    LeftIsFraction(p, 0);
    hide Policy.Rate, Left, Whole;
  }

  lemma FloorOf(n: int, f: real)
    requires 0.0 <= f < 1.0
    ensures (n as real + f).Floor == n
  {
  }

  /**
   If the bucket never overflows when it is emptied at every tick, some run grants as many
   requests in `[0, len]` as the bound allows: its whole part.
   */
  lemma IntervalBoundIsReached(bucket: string, p: Policy, len: nat) returns (ops: seq<Op>)
    requires p.Valid() && p.IsTokenBucket() && NeverOverflows(p, len)
    ensures Timely(ops, 0) && PolicyOn(ops, bucket, p) && HarmlessOn(ops, p)
    ensures GrantsOf(EMPTY, ops, bucket, 0, len + 1) == Allowance(p, 0, len).Floor
  {
    hide GrantsOf, Refilled, Allowance, Policy.Rate, Policy.Capacity, Left, Whole, Harmless, Overflows;
    NothingYet(p);
    var ticks := Ticks(bucket, p, 0, len);
    ops := Asks(bucket, p, 0, p.Capacity()) + ticks;
    LeftIsFraction(p, len);
    var after := AsksGranted(EMPTY, bucket, p, 0, p.Capacity(), 0.0, ticks, 0, len + 1);
    TicksGranted(after, bucket, p, 0, len, 0, len + 1);
    AllowanceParts(p, len);
    FloorOf(p.Capacity() + Whole(p, len), Left(p, len));
  }

  lemma WholeWindows(p: Policy, n: nat)
    requires p.Valid()
    ensures p.window * n >= 0 && Allowance(p, 0, p.window * n) == (p.Capacity() + n * p.limit) as real
  {
    RateIsPositive(p);
    var r, w := p.Rate(), p.window as real;
    hide Policy.Rate, Policy.Capacity;
    assert (p.window * n) as real == w * n as real;
    DripTimes(r, n as real, r * n as real, w);
    assert r * w * n as real == p.limit as real * n as real;
    assert r * (w * n as real) == r * w * n as real;
    assert (n * p.limit) as real == p.limit as real * n as real;
  }

  /** Over whole windows that is the bound itself. A burst as large as the limit is enough: `RoomForAWindow`. */
  lemma WindowsBoundIsReached(bucket: string, p: Policy, n: nat) returns (ops: seq<Op>)
    requires p.Valid() && p.IsTokenBucket() && NeverOverflows(p, p.window * n)
    ensures Timely(ops, 0) && PolicyOn(ops, bucket, p) && HarmlessOn(ops, p)
    ensures GrantsOf(EMPTY, ops, bucket, 0, p.window * n + 1) as real == Allowance(p, 0, p.window * n)
  {
    WholeWindows(p, n);
    hide GrantsOf, Allowance, Policy.Rate, Policy.Capacity, NeverOverflows, Harmless;
    ops := IntervalBoundIsReached(bucket, p, p.window * n);
  }

  // ----- And when it is not -----

  lemma NotPositive(k: int, w: int)
    requires w > 0 && k * w < w
    ensures k <= 0 && k * w <= 0
  {
    assert (k - 1) * w == k * w - w;
  }

  /** Integers behind the loss: a level that has lost nothing by a tick does not fit the bucket one tick later. */
  lemma LossProduct(n: int, l: int, w: int, cap: int, g: int, q: int, r: int)
    requires n == q * w + r && 0 <= r < w && n + l <= g * w && g * w <= cap * w + n
    ensures r + l <= cap * w
  {
    var k := g - cap - q;
    assert k * w == g * w - cap * w - q * w;
    NotPositive(k, w);
  }

  lemma ScaledInts(p: Policy, k: nat, g: int, c: int)
    requires p.Valid()
    ensures p.Rate() * k as real <= g as real <==> p.limit * k <= g * p.window
    ensures g as real <= c as real + p.Rate() * k as real <==> g * p.window <= c * p.window + p.limit * k
  {
    hide Policy.Rate;
    DripScaled(p, k);
    var x, w := p.Rate() * k as real, p.window as real;
    assert g as real * w == (g * p.window) as real && c as real * w == (c * p.window) as real;
    Unscaled(x, g as real, w);
    Distributes(c as real, x, w);
    Unscaled(g as real, c as real + x, w);
  }

  lemma LossAt(p: Policy, d: nat, g: int)
    requires p.Valid()
    requires p.limit * (d + 1) <= g * p.window && g * p.window <= p.Capacity() * p.window + p.limit * d
    ensures !Overflows(p, d)
  {
    hide Policy.Capacity;
    var n, w := p.limit * d, p.window;
    SplitDivision(n, w);
    assert p.limit * (d + 1) == n + p.limit;
    LossProduct(n, p.limit, w, p.Capacity(), g, n / w, n % w);
  }

  /** A bucket that has lost nothing since it was full cannot get past a tick that overflows. */
  lemma CannotPass(p: Policy, d: nat, g: int, x: nat)
    requires p.Valid() && d < x && p.Rate() * x as real <= g as real
    requires g as real <= p.Capacity() as real + p.Rate() * d as real
    ensures !Overflows(p, d)
  {
    hide Policy.Rate, Policy.Capacity, Overflows;
    RateIsPositive(p);
    Scale(p.Rate(), (d + 1) as real, x as real);
    ScaledInts(p, d + 1, g, p.Capacity());
    ScaledInts(p, d, g, p.Capacity());
    LossAt(p, d, g);
  }

  /** What drips in during `n` ticks. */
  function Drip(p: Policy, n: int): real
    requires p.Valid()
  {
    p.Rate() * n as real
  }

  lemma DripAdds(p: Policy, m: int, n: int)
    requires p.Valid()
    ensures Drip(p, m + n) == Drip(p, m) + Drip(p, n)
    ensures m <= n ==> Drip(p, m) <= Drip(p, n)
    ensures m < n ==> Drip(p, m) < Drip(p, n)
    ensures Drip(p, 0) == 0.0
  {
    RateIsPositive(p);
    hide Policy.Rate;
    Scale(p.Rate(), m as real, n as real);
  }

  lemma BudgetDrips(e: Option<TbEntry>, p: Policy, now: int, t: int)
    requires p.Valid()
    ensures Budget(e, p, now, t) == Refilled(e, p, now) + Drip(p, t - now)
  {
  }

  /** What a bucket that was full at `s` holds at `now` if it has lost nothing since, and granted `g`. */
  predicate NothingLost(e: Option<TbEntry>, p: Policy, s: int, now: int, g: int)
    requires p.Valid()
  {
    Refilled(e, p, now) == p.Capacity() as real + Drip(p, now - s) - g as real
  }

  lemma PastTheTick(p: Policy, d: nat, g: int, now: int, x: int)
    requires p.Valid() && now <= d < x && Drip(p, x) <= g as real
    requires 0.0 <= p.Capacity() as real + Drip(p, now) - g as real
    ensures !Overflows(p, d)
  {
    DripAdds(p, now, d);
    hide Policy.Capacity, Overflows;
    CannotPass(p, d, g, x);
  }

  /** By the next request at `x`, either something is lost, or `x` comes no later than the tick that overflows. */
  lemma LostOrEarly(e: Option<TbEntry>, p: Policy, s: int, now: int, g: int, d: nat, x: int, t: int)
    requires p.Valid() && Filled(e, p) && (e.Some? ==> e.value.last <= now) && s <= now <= s + d && now <= x
    requires NothingLost(e, p, s, now, g) && Overflows(p, d)
    ensures || Budget(e, p, x, t) < Budget(e, p, now, t)
            || (x <= s + d && NothingLost(e, p, s, x, g))
  {
    hide Take;
    BudgetShrinks(e, p, now, x, t);
    TakeKeepsFilled(e, p, now);
    TakeKeepsFilled(e, p, x);
    BudgetDrips(e, p, now, t);
    BudgetDrips(e, p, x, t);
    hide Policy.Rate, Policy.Capacity, Refilled, Filled, Overflows, Take, Budget, Drip;
    DripAdds(p, now - s, x - now);
    DripAdds(p, x - now, t - x);
    if Budget(e, p, x, t) == Budget(e, p, now, t) && x > s + d {
      PastTheTick(p, d, g, now - s, x - s);
    }
  }

  lemma BudgetIsPositive(e: Option<TbEntry>, p: Policy, now: int, t: int)
    requires p.Valid() && Filled(e, p) && (e.Some? ==> e.value.last <= now) && now < t
    ensures Budget(e, p, now, t) > 0.0
  {
    hide Take;
    TakeKeepsFilled(e, p, now);
    BudgetDrips(e, p, now, t);
    hide Refilled, Filled, Policy.Rate, Policy.Capacity, Drip, Budget;
    DripAdds(p, 0, t - now);
  }

  lemma StillNothingLost(e: Option<TbEntry>, e': Option<TbEntry>, p: Policy, s: int, now: int, g: int, spent: nat,
                         t: int)
    requires p.Valid() && NothingLost(e, p, s, now, g)
    requires Budget(e', p, now, t) == Budget(e, p, now, t) - spent as real
    ensures NothingLost(e', p, s, now, g + spent)
  {
    BudgetDrips(e, p, now, t);
    BudgetDrips(e', p, now, t);
    hide Refilled, Policy.Rate, Policy.Capacity, Drip, Budget;
  }

  /**
   If the bucket overflows within the interval even when emptied at every tick, something is
   lost whatever the requests: the grants stay below the tokens at hand and those that drip in.
   */
  lemma {:induction false} LosesFrom(m: Counters, ops: seq<Op>, bucket: string, p: Policy, s: int, now: int, g: int,
                                     d: nat, t: int)
    requires Timely(ops, now) && s <= now <= s + d < t
    requires p.Valid() && p.IsTokenBucket() && PolicyOn(ops, bucket, p) && HarmlessOn(ops, p) && Overflows(p, d)
    requires Filled(Lookup(m.tb, bucket), p) && (bucket in m.tb ==> m.tb[bucket].last <= now)
    requires NothingLost(Lookup(m.tb, bucket), p, s, now, g)
    ensures GrantsOf(m, ops, bucket, now, t + 1) as real < Budget(Lookup(m.tb, bucket), p, now, t)
    decreases |ops|
  {
    hide Budget, Filled, Apply, Refilled, Policy.Rate, NothingLost, Overflows, Harmless;
    var e := Lookup(m.tb, bucket);
    if ops == [] || ops[0].now > t {
      NoneAfter(m, ops, bucket, now, t + 1);
      BudgetIsPositive(e, p, now, t);
    } else {
      var op, rest := ops[0], ops[1..];
      LostOrEarly(e, p, s, now, g, d, op.now, t);
      SameFrom(m, ops, bucket, now, op.now, t + 1);
      if Budget(e, p, op.now, t) < Budget(e, p, now, t) {
        GrantsWithinBudget(m, ops, bucket, p, op.now, t);
      } else {
        BudgetShrinks(e, p, now, op.now, t);
        StepSpends(m, op, bucket, p, t);
        var m', v := Apply(m, op).0, Apply(m, op).1;
        var spent := if op.Ask? && op.bucket == bucket && v[0].allowed then 1 else 0;
        StillNothingLost(e, Lookup(m'.tb, bucket), p, s, op.now, g, spent, t);
        LosesFrom(m', rest, bucket, p, s, op.now, g + spent, d, t);
      }
    }
  }

  lemma AllowanceDrips(p: Policy, s: int, t: int)
    requires p.Valid()
    ensures Allowance(p, s, t) == p.Capacity() as real + Drip(p, t - s)
  {
  }

  /** The first request of the interval finds a full bucket at its very beginning, or something is lost already. */
  lemma LateOrFull(e: Option<TbEntry>, p: Policy, s: int, from: int, t: int)
    requires p.Valid() && Filled(e, p) && (e.Some? ==> e.value.last <= from) && s <= from <= t
    ensures Budget(e, p, from, t) < Allowance(p, s, t) || (from == s && NothingLost(e, p, s, from, 0))
  {
    hide Take;
    TakeKeepsFilled(e, p, from);
    BudgetDrips(e, p, from, t);
    AllowanceDrips(p, s, t);
    hide Refilled, Filled, Policy.Rate, Policy.Capacity, Drip, Budget, Allowance;
    DripAdds(p, t - from, t - s);
    DripAdds(p, 0, 0);
  }

  /** The case of a request within the interval, the first one there. */
  lemma LosesInside(m: Counters, ops: seq<Op>, bucket: string, p: Policy, s: int, d: nat, t: int)
    requires ops != [] && s <= ops[0].now <= t && Timely(ops, ops[0].now) && s + d < t
    requires p.Valid() && p.IsTokenBucket() && PolicyOn(ops, bucket, p) && HarmlessOn(ops, p) && Overflows(p, d)
    requires Filled(Lookup(m.tb, bucket), p) && (bucket in m.tb ==> m.tb[bucket].last <= ops[0].now)
    ensures GrantsOf(m, ops, bucket, s, t + 1) as real < Allowance(p, s, t)
  {
    hide Filled, Allowance, Budget, NothingLost, Overflows, Harmless, Policy.Rate, Policy.Capacity, GrantsOf;
    var e, from := Lookup(m.tb, bucket), ops[0].now;
    SameFrom(m, ops, bucket, s, from, t + 1);
    LateOrFull(e, p, s, from, t);
    if Budget(e, p, from, t) < Allowance(p, s, t) {
      GrantsWithinBudget(m, ops, bucket, p, from, t);
    } else {
      LosesFrom(m, ops, bucket, p, s, from, 0, d, t);
      AllowanceGrows(e, p, s, from, t);
    }
  }

  lemma AllowanceIsPositive(p: Policy, s: int, t: int)
    requires p.Valid() && s < t
    ensures Allowance(p, s, t) > 0.0
  {
    AllowanceDrips(p, s, t);
    hide Policy.Rate, Drip, Allowance;
    DripAdds(p, 0, t - s);
  }

  lemma {:induction false} LosesSomething(m: Counters, ops: seq<Op>, bucket: string, p: Policy, now: int,
                                          s: int, d: nat, t: int)
    requires Timely(ops, now) && s + d < t
    requires p.Valid() && p.IsTokenBucket() && PolicyOn(ops, bucket, p) && HarmlessOn(ops, p) && Overflows(p, d)
    requires Filled(Lookup(m.tb, bucket), p) && (bucket in m.tb ==> m.tb[bucket].last <= now)
    ensures GrantsOf(m, ops, bucket, s, t + 1) as real < Allowance(p, s, t)
    decreases |ops|
  {
    hide Filled, Apply, Refilled, Allowance, Budget, Overflows, Harmless, Policy.Rate, Policy.Capacity;
    if ops == [] || ops[0].now > t {
      NoneAfter(m, ops, bucket, s, t + 1);
      AllowanceIsPositive(p, s, t);
    } else if ops[0].now < s {
      StepSpends(m, ops[0], bucket, p, t);
      LosesSomething(Apply(m, ops[0]).0, ops[1..], bucket, p, ops[0].now, s, d, t);
    } else {
      LosesInside(m, ops, bucket, p, s, d, t);
    }
  }

  /**
   And only then: if the bucket overflows at some tick of the interval even when emptied at each,
   no run at all reaches the bound.
   */
  lemma OverflowLosesTokens(ops: seq<Op>, bucket: string, p: Policy, since: int, s: int, len: nat)
    requires Timely(ops, since) && PolicyOn(ops, bucket, p) && HarmlessOn(ops, p)
    requires p.Valid() && p.IsTokenBucket() && !NeverOverflows(p, len)
    ensures GrantsOf(EMPTY, ops, bucket, s, s + len + 1) as real < Allowance(p, s, s + len)
  {
    var d: nat :| d < len && Overflows(p, d);
    LosesSomething(EMPTY, ops, bucket, p, since, s, d, s + len);
  }
}
