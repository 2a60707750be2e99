/**
 A policy with a window of zero length. No caller sets one, and nothing rejects it: the divisions
 by zero give infinities and NaN, which compare with nothing.
 */
module ZeroWindow {
  import opened Wrappers
  import opened RateLimit
  import opened RateLimitRuns
  import SlidingWindow

  lemma EstimateIsNaN(e: SwEntry, p: Policy, now: int)
    requires p.window == 0 && e.prev == 0
    ensures Estimate(e, p, now) == NaN
  {
  }

  /** As a sliding window it limits nothing: in every reachable state every request is granted. */
  lemma {:induction false} SlidingGrantsAll(ops: seq<Op>, bucket: string, p: Policy, now: int)
    requires p.window == 0 && !p.IsTokenBucket()
    ensures Request(Run(EMPTY, ops).0, bucket, p, now).1.allowed
  {
    var m := Run(EMPTY, ops).0;
    SlidingWindow.PreviousIsAlwaysZero(EMPTY, ops);
    EstimateIsNaN(Present(Lookup(m.sw, bucket), p, now), p, now);
    hide Run, Estimate;
  }

  predicate Poisoned(e: Option<TbEntry>) {
    e.Some? && e.value.tokens.NaN?
  }

  /** A token count that is not a number stays so and earns no grant, whatever the policy. */
  lemma PoisonStays(e: Option<TbEntry>, p: Policy, now: int)
    requires Poisoned(e)
    ensures Poisoned(Some(Take(e, p, now).0)) && !Take(e, p, now).1.allowed
  {
  }

  /** A new bucket is poisoned by its first request: infinitely fast times no time. */
  lemma FirstPoisons(p: Policy, now: int)
    requires p.window == 0
    ensures Poisoned(Some(Take(None, p, now).0)) && !Take(None, p, now).1.allowed
  {
    assert Times(p.FloatRate(), 0.0) == NaN;
  }

  lemma StepPoisons(m: Counters, op: Op, bucket: string, p: Policy)
    requires p.window == 0 && p.IsTokenBucket() && (op.Ask? && op.bucket == bucket ==> op.policy == p)
    requires bucket in m.tb ==> Poisoned(Some(m.tb[bucket]))
    ensures var (m', v) := Apply(m, op);
            && (bucket in m'.tb ==> Poisoned(Some(m'.tb[bucket])))
            && (op.Ask? && op.bucket == bucket ==> |v| == 1 && !v[0].allowed)
  {
    hide Take;
    if op.Ask? && op.bucket == bucket {
      FirstPoisons(p, op.now);
      if bucket in m.tb {
        PoisonStays(Some(m.tb[bucket]), p, op.now);
      }
    }
  }

  lemma {:induction false} RefusesFrom(m: Counters, ops: seq<Op>, bucket: string, p: Policy, a: int, b: int)
    requires p.window == 0 && p.IsTokenBucket() && PolicyOn(ops, bucket, p)
    requires bucket in m.tb ==> Poisoned(Some(m.tb[bucket]))
    ensures GrantsOf(m, ops, bucket, a, b) == 0
    decreases |ops|
  {
    if ops != [] {
      hide Apply;
      StepPoisons(m, ops[0], bucket, p);
      RefusesFrom(Apply(m, ops[0]).0, ops[1..], bucket, p, a, b);
    }
  }

  /** As a token bucket it refuses everything: over every run, prunes and all, nothing is ever granted. */
  lemma TokenBucketRefusesAll(ops: seq<Op>, bucket: string, p: Policy, a: int, b: int)
    requires p.window == 0 && p.IsTokenBucket() && PolicyOn(ops, bucket, p)
    ensures GrantsOf(EMPTY, ops, bucket, a, b) == 0
  {
    RefusesFrom(EMPTY, ops, bucket, p, a, b);
  }

  /** And it leaves the bucket dead for any other policy, until a prune forgets it. */
  lemma {:induction false} PoisonedUntilPruned(m: Counters, ops: seq<Op>, bucket: string, a: int, b: int)
    requires bucket in m.tb && Poisoned(Some(m.tb[bucket]))
    requires forall i :: 0 <= i < |ops| ==> ops[i].Ask? && (ops[i].bucket == bucket ==> ops[i].policy.IsTokenBucket())
    ensures GrantsOf(m, ops, bucket, a, b) == 0
    decreases |ops|
  {
    if ops != [] {
      hide Take;
      if ops[0].bucket == bucket {
        PoisonStays(Some(m.tb[bucket]), ops[0].policy, ops[0].now);
      }
      PoisonedUntilPruned(Apply(m, ops[0]).0, ops[1..], bucket, a, b);
    }
  }
}
