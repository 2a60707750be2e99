/**
 The "sliding window" of the in-memory limiter. Nothing ever assigns the previous
 window's count, so it is a fixed window, and its guarantees are a fixed window's.
 */
module SlidingWindow {
  import opened Wrappers
  import opened FixedWindow
  import opened RateLimit
  import opened RateLimitRuns

  predicate NoPrevious(m: Counters) {
    forall k :: k in m.sw ==> m.sw[k].prev == 0 && m.sw[k].curr >= 0
  }

  /** In every reachable state the previous window's count is 0, whatever was asked or pruned. */
  lemma {:induction false} PreviousIsAlwaysZero(m: Counters, ops: seq<Op>)
    requires NoPrevious(m)
    ensures NoPrevious(Run(m, ops).0)
    decreases |ops|
  {
    if ops != [] {
      PreviousIsAlwaysZero(Apply(m, ops[0]).0, ops[1..]);
    }
  }

  function Abs(e: Option<SwEntry>): Option<Window>
    requires e.Some? ==> e.value.curr >= 0
  {
    if e == None then None else Some(Window(e.value.window, e.value.curr))
  }

  /** With no previous count the estimate is the plain count, and the verdict a fixed window's. */
  lemma SlideIsFixedWindow(e: Option<SwEntry>, p: Policy, now: int)
    requires p.Valid() && (e.Some? ==> e.value.prev == 0 && e.value.curr >= 0)
    ensures var (e', v) := Slide(e, p, now);
            var (w, ok) := Step(Abs(e), p.limit, p.window, now);
            && e'.prev == 0 && e'.curr >= 0 && Abs(Some(e')) == Some(w) && v.allowed == ok
            && v.remaining == (if ok then p.limit - w.count else 0)
            && v.retryAfter == (if ok then 0 else p.window - (now - w.start))
  {
    SlideIsReal(e, p, now);
    hide Slide;
    var o := if e == None || now - e.value.window >= p.window then SwEntry(now, 0, 0) else e.value;
    assert Weighted(o, p, now) == o.curr as real;
    var left := p.limit - o.curr - 1;
    assert p.limit as real - o.curr as real - 1.0 == left as real;
  }

  function TimesOn(ops: seq<Op>, bucket: string): seq<int> {
    if ops == [] then [] else
    (if ops[0].Ask? && ops[0].bucket == bucket then [ops[0].now] else []) + TimesOn(ops[1..], bucket)
  }

  lemma {:induction false} TimesOnOrdered(ops: seq<Op>, bucket: string, since: int)
    requires Timely(ops, since)
    ensures Nondecreasing(TimesOn(ops, bucket))
    ensures forall i :: 0 <= i < |TimesOn(ops, bucket)| ==> since <= TimesOn(ops, bucket)[i]
  {
    if ops != [] {
      TimesOnOrdered(ops[1..], bucket, ops[0].now);
    }
  }

  lemma SlidesOnly(m: Counters, op: Op)
    requires NoPrevious(m)
    ensures NoPrevious(Apply(m, op).0)
  {
  }

  /** A request on the bucket is a step of the fixed window. */
  lemma AskIsStep(m: Counters, op: Op, p: Policy)
    requires op.Ask? && op.policy == p && p.Valid() && !p.IsTokenBucket() && NoPrevious(m)
    ensures NoPrevious(Apply(m, op).0)
    ensures var (m', v) := Apply(m, op);
            var (w, ok) := Step(Abs(Lookup(m.sw, op.bucket)), p.limit, p.window, op.now);
            Abs(Lookup(m'.sw, op.bucket)) == Some(w) && |v| == 1 && v[0].allowed == ok
  {
    SlidesOnly(m, op);
    SlideIsFixedWindow(Lookup(m.sw, op.bucket), p, op.now);
    hide Slide, Step;
  }

  /** Any other operation leaves the bucket's window as good as it was for what follows. */
  lemma OthersKeep(m: Counters, op: Op, bucket: string, p: Policy, times: seq<int>, a: int, b: int)
    requires NoPrevious(m) && p.Valid() && !p.IsTokenBucket()
    requires if op.Ask? then op.bucket != bucket else Harmless(op.maxAge, p)
    requires forall i :: 0 <= i < |times| ==> op.now <= times[i]
    ensures NoPrevious(Apply(m, op).0)
    ensures GrantsIn(Abs(Lookup(m.sw, bucket)), p.limit, p.window, times, a, b)
            == GrantsIn(Abs(Lookup(Apply(m, op).0.sw, bucket)), p.limit, p.window, times, a, b)
  {
    SlidesOnly(m, op);
    hide GrantsIn;
    if op.Ask? {
      OtherBucketsKept(m, op.bucket, op.policy, op.now, bucket);
    } else if bucket in m.sw && bucket !in Apply(m, op).0.sw {
      ExpiredIsGone(Abs(Lookup(m.sw, bucket)).value, p.limit, p.window, times, a, b);
    }
  }

  /** The fixed window of a bucket has granted what the bucket has. */
  predicate SameGrants(m: Counters, ops: seq<Op>, bucket: string, p: Policy, a: int, b: int)
    requires NoPrevious(m) && p.Valid()
  {
    GrantsOf(m, ops, bucket, a, b)
    == GrantsIn(Abs(Lookup(m.sw, bucket)), p.limit, p.window, TimesOn(ops, bucket), a, b)
  }

  lemma NoOps(m: Counters, bucket: string, p: Policy, a: int, b: int)
    requires NoPrevious(m) && p.Valid()
    ensures SameGrants(m, [], bucket, p, a, b)
  {
  }

  lemma AskFirst(m: Counters, op: Op, rest: seq<Op>, p: Policy, a: int, b: int)
    requires op.Ask? && op.policy == p && p.Valid() && !p.IsTokenBucket() && NoPrevious(m)
    requires NoPrevious(Apply(m, op).0)
    requires SameGrants(Apply(m, op).0, rest, op.bucket, p, a, b)
    ensures SameGrants(m, [op] + rest, op.bucket, p, a, b)
  {
    var ops := [op] + rest;
    assert ops[0] == op && ops[1..] == rest;
    AskIsStep(m, op, p);
    hide Apply, Step;
    assert TimesOn(ops, op.bucket)[1..] == TimesOn(rest, op.bucket);
  }

  lemma OtherFirst(m: Counters, op: Op, rest: seq<Op>, bucket: string, p: Policy, a: int, b: int)
    requires p.Valid() && !p.IsTokenBucket() && NoPrevious(m) && Timely(rest, op.now)
    requires if op.Ask? then op.bucket != bucket else Harmless(op.maxAge, p)
    requires NoPrevious(Apply(m, op).0)
    requires SameGrants(Apply(m, op).0, rest, bucket, p, a, b)
    ensures SameGrants(m, [op] + rest, bucket, p, a, b)
  {
    var ops := [op] + rest;
    assert ops[0] == op && ops[1..] == rest;
    assert TimesOn(ops, bucket) == TimesOn(rest, bucket);
    TimesOnOrdered(rest, bucket, op.now);
    OthersKeep(m, op, bucket, p, TimesOn(rest, bucket), a, b);
    hide Apply, GrantsIn, Harmless, TimesOn;
  }

  /** The grants on one bucket of a whole run are those of one fixed window, prunes and all. */
  lemma {:induction false} RunIsFixedWindow(m: Counters, ops: seq<Op>, bucket: string, p: Policy, since: int,
                                            a: int, b: int)
    requires NoPrevious(m) && Timely(ops, since)
    requires p.Valid() && !p.IsTokenBucket() && PolicyOn(ops, bucket, p) && HarmlessOn(ops, p)
    ensures GrantsOf(m, ops, bucket, a, b)
            == GrantsIn(Abs(Lookup(m.sw, bucket)), p.limit, p.window, TimesOn(ops, bucket), a, b)
    decreases |ops|
  {
    hide Apply, Harmless, GrantsOf, GrantsIn, TimesOn;
    if ops == [] {
      NoOps(m, bucket, p, a, b);
    } else {
      var op, rest := ops[0], ops[1..];
      assert ops == [op] + rest;
      SlidesOnly(m, op);
      RunIsFixedWindow(Apply(m, op).0, rest, bucket, p, op.now, a, b);
      if op.Ask? && op.bucket == bucket {
        AskFirst(m, op, rest, p, a, b);
      } else {
        OtherFirst(m, op, rest, bucket, p, a, b);
      }
    }
  }

  /**
   Over every run from an empty limiter, in any half-open interval as long as the window,
   a bucket grants at most `2 * limit - 1` requests, and `limit` if the window is one tick.
   */
  lemma IntervalBound(ops: seq<Op>, bucket: string, p: Policy, since: int, a: int)
    requires Timely(ops, since)
    requires p.Valid() && !p.IsTokenBucket() && PolicyOn(ops, bucket, p) && HarmlessOn(ops, p)
    ensures GrantsOf(EMPTY, ops, bucket, a, a + p.window) <= Most(p.limit, p.window)
  {
    hide GrantsOf, GrantsIn, Most, TimesOn, Harmless;
    RunIsFixedWindow(EMPTY, ops, bucket, p, since, a, a + p.window);
    TimesOnOrdered(ops, bucket, since);
    AnyInterval(None, p.limit, p.window, TimesOn(ops, bucket), a);
  }

  function AskAll(bucket: string, p: Policy, times: seq<int>): (ops: seq<Op>)
    requires p.Valid()
    ensures |ops| == |times|
    ensures forall i :: 0 <= i < |ops| ==> ops[i] == Ask(bucket, p, times[i])
  {
    seq(|times|, i requires 0 <= i < |times| => Ask(bucket, p, times[i]))
  }

  lemma {:induction false} TimesOnAskAll(bucket: string, p: Policy, times: seq<int>)
    requires p.Valid()
    ensures TimesOn(AskAll(bucket, p, times), bucket) == times
  {
    if times != [] {
      assert AskAll(bucket, p, times)[1..] == AskAll(bucket, p, times[1..]);
      TimesOnAskAll(bucket, p, times[1..]);
    }
  }

  /** No smaller bound is true of any policy: some run, timely and never pruned, reaches it. */
  lemma IntervalBoundIsTight(bucket: string, p: Policy) returns (ops: seq<Op>, a: int)
    requires p.Valid() && !p.IsTokenBucket()
    ensures Timely(ops, 0) && PolicyOn(ops, bucket, p) && HarmlessOn(ops, p)
    ensures GrantsOf(EMPTY, ops, bucket, a, a + p.window) == Most(p.limit, p.window)
  {
    var times;
    times, a := AnyIntervalIsTight(p.limit, p.window);
    ops := AskAll(bucket, p, times);
    TimesOnAskAll(bucket, p, times);
    RunIsFixedWindow(EMPTY, ops, bucket, p, 0, a, a + p.window);
  }

  /**
   The reported wait is exact: with no request on the bucket in between, a denied request
   is granted from then on and never before.
   */
  lemma RetryAfterIsExact(e: Option<SwEntry>, p: Policy, now: int, later: int)
    requires p.Valid() && (e.Some? ==> e.value.prev == 0 && e.value.curr >= 0)
    requires !Slide(e, p, now).1.allowed && now <= later
    ensures var (e', v) := Slide(e, p, now);
            v.retryAfter > 0 && (Slide(Some(e'), p, later).1.allowed <==> later >= now + v.retryAfter)
  {
    SlideIsFixedWindow(e, p, now);
    SlideIsFixedWindow(Some(Slide(e, p, now).0), p, later);
  }
}
