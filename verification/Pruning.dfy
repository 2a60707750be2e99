/** When pruning the in-memory limiter can be noticed, and when it cannot. */
module Pruning {
  import opened Wrappers
  import opened RateLimit
  import opened RateLimitRuns
  import SlidingWindow
  import TokenBucket

  /** The same run without its prunes. */
  function Strip(ops: seq<Op>): seq<Op> {
    if ops == [] then [] else
    var rest := Strip(ops[1..]);
    if ops[0].Prune? then rest else [ops[0]] + rest
  }

  /** Each bucket has one policy for the whole run, and no prune is too eager for it. */
  ghost predicate Steady(ops: seq<Op>, policyOf: string -> Policy) {
    && (forall i :: 0 <= i < |ops| ==> ops[i].Ask? ==> ops[i].policy == policyOf(ops[i].bucket))
    && (forall i, b :: 0 <= i < |ops| && ops[i].Prune? ==> Harmless(ops[i].maxAge, policyOf(b)))
    && (forall b :: policyOf(b).Valid())
  }

  /** A pruned window is one that the next request would reopen anyway. */
  predicate SameWindow(e: Option<SwEntry>, kept: Option<SwEntry>, p: Policy, now: int) {
    e == kept || (e == None && kept.Some? && now - kept.value.window >= p.window)
  }

  /** A pruned token bucket is one that is full again. */
  predicate SameTokens(e: Option<TbEntry>, kept: Option<TbEntry>, p: Policy, now: int) {
    p.Valid() && TokenBucket.Filled(kept, p) && (kept.Some? ==> kept.value.last <= now)
    && (e == kept || (e == None && Refilled(kept, p, now) == p.Capacity() as real))
  }

  predicate SameOn(m: Counters, kept: Counters, b: string, p: Policy, now: int) {
    if p.IsTokenBucket() then SameTokens(Lookup(m.tb, b), Lookup(kept.tb, b), p, now)
    else SameWindow(Lookup(m.sw, b), Lookup(kept.sw, b), p, now)
  }

  lemma SameLater(m: Counters, kept: Counters, b: string, p: Policy, now: int, later: int)
    requires p.Valid() && SameOn(m, kept, b, p, now) && now <= later
    ensures SameOn(m, kept, b, p, later)
  {
    if p.IsTokenBucket() {
      var e := Lookup(kept.tb, b);
      TokenBucket.BudgetShrinks(e, p, now, later, later);
      TokenBucket.TakeKeepsFilled(e, p, later);
    }
  }

  lemma SameTake(e: Option<TbEntry>, kept: Option<TbEntry>, p: Policy, now: int)
    requires SameTokens(e, kept, p, now)
    ensures Take(e, p, now) == Take(kept, p, now)
    ensures SameTokens(Some(Take(e, p, now).0), Some(Take(kept, p, now).0), p, now)
  {
    TokenBucket.TakeKeepsFilled(kept, p, now);
    TakeIsReal(e, p, now);
    TakeIsReal(kept, p, now);
    hide Take, Policy.Rate, Policy.Capacity, Grown;
  }

  /** Asking both gives the same verdict and leaves them the same. */
  lemma SameVerdict(m: Counters, kept: Counters, b: string, p: Policy, now: int)
    requires p.Valid() && SameOn(m, kept, b, p, now)
    ensures Request(m, b, p, now).1 == Request(kept, b, p, now).1
    ensures SameOn(Request(m, b, p, now).0, Request(kept, b, p, now).0, b, p, now)
  {
    if p.IsTokenBucket() {
      SameTake(Lookup(m.tb, b), Lookup(kept.tb, b), p, now);
      hide Take, SameTokens;
    } else {
      hide Slide;
    }
  }

  lemma SameAfterPrune(m: Counters, kept: Counters, b: string, p: Policy, maxAge: int, now: int)
    requires p.Valid() && SameOn(m, kept, b, p, now) && Harmless(maxAge, p)
    ensures SameOn(Pruned(m, now - maxAge), kept, b, p, now)
  {
    if p.IsTokenBucket() && b in m.tb && m.tb[b].last < now - maxAge {
      TokenBucket.FullAgain(m.tb[b], p, maxAge, now);
    }
  }

  lemma {:induction false} SameRun(m: Counters, kept: Counters, ops: seq<Op>, policyOf: string -> Policy, now: int)
    requires Timely(ops, now) && Steady(ops, policyOf)
    requires forall b :: SameOn(m, kept, b, policyOf(b), now)
    ensures Run(m, ops).1 == Run(kept, Strip(ops)).1
    decreases |ops|
  {
    if ops != [] {
      var op, rest := ops[0], ops[1..];
      var m' := Apply(m, op).0;
      var kept' := if op.Ask? then Apply(kept, op).0 else kept;
      forall b ensures SameOn(m', kept', b, policyOf(b), op.now) {
        SameLater(m, kept, b, policyOf(b), now, op.now);
        match op
        case Ask(bucket, p, t) =>
          if b == bucket {
            SameVerdict(m, kept, b, p, t);
          } else {
            OtherBucketsKept(m, bucket, p, t, b);
            OtherBucketsKept(kept, bucket, p, t, b);
          }
        case Prune(maxAge, t) =>
          SameAfterPrune(m, kept, b, policyOf(b), maxAge, t);
      }
      SameRun(m', kept', rest, policyOf, op.now);
      if op.Ask? {
        SameLater(m, kept, op.bucket, op.policy, now, op.now);
        SameVerdict(m, kept, op.bucket, op.policy, op.now);
        assert Strip(ops)[1..] == Strip(rest);
      }
    }
  }

  /**
   Pruning is invisible: with one policy per bucket and one clock, prunes that are
   `Harmless` for every policy change no verdict, remaining count or wait of any run.
   */
  lemma {:induction false} PruningIsInvisible(ops: seq<Op>, policyOf: string -> Policy, since: int)
    requires Timely(ops, since) && Steady(ops, policyOf)
    ensures Run(EMPTY, ops).1 == Run(EMPTY, Strip(ops)).1
  {
    forall b ensures SameOn(EMPTY, EMPTY, b, policyOf(b), since) {
      assert policyOf(b).Valid();
    }
    SameRun(EMPTY, EMPTY, ops, policyOf, since);
  }

  // ----- A prune that is not harmless shows -----

  lemma {:induction false} RunAppend(m: Counters, s: seq<Op>, t: seq<Op>)
    ensures var mid := Run(m, s);
            Run(m, s + t) == (Run(mid.0, t).0, mid.1 + Run(mid.0, t).1)
    decreases |s|
  {
    hide Apply;
    if s == [] {
      assert s + t == t && [] + Run(m, t).1 == Run(m, t).1;
    } else {
      assert (s + t)[1..] == s[1..] + t;
      var (m', v) := Apply(m, s[0]);
      RunAppend(m', s[1..], t);
      var mid := Run(m', s[1..]);
      assert v + (mid.1 + Run(mid.0, t).1) == v + mid.1 + Run(mid.0, t).1;
    }
  }

  lemma {:induction false} DrainedBy(m: Counters, b: string, p: Policy, have: int, n: nat)
    requires p.Valid() && p.IsTokenBucket() && n <= have <= p.Capacity()
    requires Lookup(m.tb, b) == Some(TbEntry(Num(have as real), 0)) || (b !in m.tb && have == p.Capacity())
    ensures n > 0 ==> Lookup(Run(m, Asks(b, p, 0, n)).0.tb, b) == Some(TbEntry(Num((have - n) as real), 0))
    decreases n
  {
    if n > 0 {
      var ops := Asks(b, p, 0, n);
      assert ops[1..] == Asks(b, p, 0, n - 1);
      assert Refilled(Lookup(m.tb, b), p, 0) == have as real;
      var m' := Request(m, b, p, 0).0;
      assert Lookup(m'.tb, b) == Some(TbEntry(Num((have - 1) as real), 0));
      DrainedBy(m', b, p, have - 1, n - 1);
    }
  }

  function Enough(p: Policy): nat
    requires p.Valid()
  {
    if p.IsTokenBucket() then p.Capacity() else 1
  }

  function Clock(maxAge: int): int {
    if maxAge < 0 then 0 else maxAge + 1
  }

  /** Enough requests at time 0 to tell a forgotten bucket from a remembered one. */
  function Witness(b: string, p: Policy, maxAge: int): (ops: seq<Op>)
    requires p.Valid()
  {
    Asks(b, p, 0, Enough(p)) + [Prune(maxAge, Clock(maxAge)), Ask(b, p, Clock(maxAge))]
  }

  lemma {:induction false} StripAsks(b: string, p: Policy, n: nat, rest: seq<Op>)
    requires p.Valid()
    ensures Strip(Asks(b, p, 0, n) + rest) == Asks(b, p, 0, n) + Strip(rest)
  {
    var ops := Asks(b, p, 0, n) + rest;
    if n == 0 {
      assert ops == rest;
    } else {
      assert ops[1..] == Asks(b, p, 0, n - 1) + rest;
      StripAsks(b, p, n - 1, rest);
      assert Asks(b, p, 0, n) == [Ask(b, p, 0)] + Asks(b, p, 0, n - 1);
    }
  }

  lemma NotYetReal(a: real, l: real, w: real, c: real)
    requires w > 0.0 && c > 0.0 && (a == 0.0 || a * l < w * c)
    ensures (l / w) * a < c
  {
    var r := l / w;
    assert r * w == l && w * (r * a) == a * l;
    if r * a >= c {
      TokenBucket.Scale(w, c, r * a);
    }
  }

  lemma NotYet(age: int, limit: int, window: int, cap: int)
    requires window > 0 && cap > 0 && age >= 0 && (age == 0 || age * limit < window * cap)
    ensures (limit as real / window as real) * age as real < cap as real
  {
    assert age as real * limit as real == (age * limit) as real;
    assert window as real * cap as real == (window * cap) as real;
    NotYetReal(age as real, limit as real, window as real, cap as real);
  }

  lemma GrownFromNothing(rate: real, now: int)
    ensures Grown(TbEntry(Num(0.0), 0), rate, now) == rate * now as real
  {
  }

  lemma StillShort(p: Policy, now: int)
    requires p.Valid() && now >= 0 && (now == 0 || now * p.limit < p.window * p.Capacity())
    ensures Grown(TbEntry(Num(0.0), 0), p.Rate(), now) < p.Capacity() as real
  {
    NotYet(now, p.limit, p.window, p.Capacity());
    GrownFromNothing(p.Rate(), now);
    hide Grown, Policy.Capacity;
  }

  lemma TruncBelow(tokens: real, cap: int)
    requires tokens < cap as real
    ensures Trunc(cap as real - 1.0) == cap - 1
    ensures tokens >= 1.0 ==> Trunc(tokens - 1.0) < cap - 1
  {
    TokenBucket.FloorBounds(tokens - 1.0);
  }

  /** What the last request of the witness learns with the bucket kept differs from a fresh one. */
  lemma WitnessTells(e: Option<TbEntry>, p: Policy, maxAge: int, now: int)
    requires p.Valid() && p.IsTokenBucket() && !Harmless(maxAge, p)
    requires e == Some(TbEntry(Num(0.0), 0)) && now == if maxAge < 0 then 0 else maxAge + 1
    ensures Take(e, p, now).1 != Take(None, p, now).1
  {
    hide Policy.Rate, Grown, Take, Trunc;
    StillShort(p, now);
    TakeIsReal(e, p, now);
    TakeIsReal(None, p, now);
    var cap := p.Capacity();
    var tokens := Grown(e.value, p.Rate(), now);
    assert Refilled(e, p, now) == tokens && Refilled(None, p, now) == cap as real;
    TruncBelow(tokens, cap);
  }

  lemma OneAsk(b: string, p: Policy)
    ensures Run(EMPTY, Asks(b, p, 0, 1)).0 == Request(EMPTY, b, p, 0).0
  {
    var pre := Asks(b, p, 0, 1);
    assert pre == [Ask(b, p, 0)] && pre[1..] == [];
    hide Request;
    assert Run(Request(EMPTY, b, p, 0).0, pre[1..]).0 == Request(EMPTY, b, p, 0).0;
  }

  lemma WindowTells(b: string, p: Policy, maxAge: int, m: Counters)
    requires p.Valid() && !p.IsTokenBucket() && !Harmless(maxAge, p) && m == Request(EMPTY, b, p, 0).0
    ensures var now := Clock(maxAge); Request(Pruned(m, now - maxAge), b, p, now).1 != Request(m, b, p, now).1
  {
    var now := Clock(maxAge);
    hide Slide;
    SlidingWindow.SlideIsFixedWindow(None, p, 0);
    SlidingWindow.SlideIsFixedWindow(Lookup(m.sw, b), p, now);
    SlidingWindow.SlideIsFixedWindow(None, p, now);
  }

  lemma BucketTells(b: string, p: Policy, maxAge: int, m: Counters)
    requires p.Valid() && p.IsTokenBucket() && !Harmless(maxAge, p)
    requires Lookup(m.tb, b) == Some(TbEntry(Num(0.0), 0))
    ensures var now := Clock(maxAge); Request(Pruned(m, now - maxAge), b, p, now).1 != Request(m, b, p, now).1
  {
    hide Take;
    WitnessTells(Lookup(m.tb, b), p, maxAge, Clock(maxAge));
  }

  /** The bucket after the requests of the witness tells whether it was forgotten. */
  lemma ForgottenTells(b: string, p: Policy, maxAge: int)
    requires p.Valid() && !Harmless(maxAge, p)
    ensures var now, m := Clock(maxAge), Run(EMPTY, Asks(b, p, 0, Enough(p))).0;
            Request(Pruned(m, now - maxAge), b, p, now).1 != Request(m, b, p, now).1
  {
    hide Request, Run, Harmless;
    var m := Run(EMPTY, Asks(b, p, 0, Enough(p))).0;
    if p.IsTokenBucket() {
      DrainedBy(EMPTY, b, p, Enough(p), Enough(p));
      BucketTells(b, p, maxAge, m);
    } else {
      OneAsk(b, p);
      WindowTells(b, p, maxAge, m);
    }
  }

  lemma RunOne(m: Counters, b: string, p: Policy, now: int)
    requires p.Valid()
    ensures Run(m, [Ask(b, p, now)]).1 == [Request(m, b, p, now).1]
  {
  }

  /**
   So `Harmless` is the exact condition: for any policy and any maximum age that is not
   harmless for it, a one-bucket run tells the difference.
   */
  lemma EagerPruneShows(b: string, p: Policy, maxAge: int)
    requires p.Valid() && !Harmless(maxAge, p)
    ensures var ops := Witness(b, p, maxAge);
            Timely(ops, 0) && Run(EMPTY, ops).1 != Run(EMPTY, Strip(ops)).1
  {
    hide Request, Pruned;
    var now, n := Clock(maxAge), Enough(p);
    var pre, prune, last := Asks(b, p, 0, n), [Prune(maxAge, now)], [Ask(b, p, now)];
    var m := Run(EMPTY, pre).0;
    assert Witness(b, p, maxAge) == pre + (prune + last);
    StripAsks(b, p, n, prune + last);
    assert (prune + last)[1..] == last && last[1..] == [];
    assert Strip(last) == last;
    RunAppend(EMPTY, pre, prune + last);
    RunAppend(EMPTY, pre, last);
    RunOne(Pruned(m, now - maxAge), b, p, now);
    RunOne(m, b, p, now);
    ForgottenTells(b, p, maxAge);
    var vs := Run(EMPTY, pre).1;
    var forgot, kept := Run(Pruned(m, now - maxAge), last).1, Run(m, last).1;
    assert Run(m, prune + last).1 == [] + forgot == forgot;
    assert (vs + forgot)[|vs|] != (vs + kept)[|vs|];
  }
}
